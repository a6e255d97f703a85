/** Safety of the run protocol over whole traces: fencing, sweeping, cancelling and batch claiming. */
module RunTheorems {
  import opened Options
  import opened RunTable
  import opened RunProtocol
  import opened RunInvariant
  import Selection

  // ---------------------------------------------------------------- vocabulary

  /** Step `i` takes `run` from `a` to `b`. */
  ghost predicate Crossed(tr: Trace, i: nat, run: RunId, a: RunState, b: RunState) {
    && i + 1 < |tr.states|
    && run in tr.states[i].rows && tr.states[i].rows[run].state == a
    && run in tr.states[i + 1].rows && tr.states[i + 1].rows[run].state == b
  }

  /** Step `i` claims `run` under `token`. */
  ghost predicate ClaimedAt(tr: Trace, i: nat, run: RunId, token: Token) {
    Crossed(tr, i, run, Queued, Running) && tr.states[i + 1].rows[run].token == Some(token)
  }

  /** The step is a write to `run` fenced by `token`: a worker's, a leftover subprocess's or the sweeper's. */
  ghost predicate WritesUnder(l: Label, run: RunId, token: Token) {
    || ((l.Succeed? || l.Fail? || l.Record? || l.Heartbeat?) && l.claim == Claim(run, token))
    || (l.SweepRunning? && l.item == Listed(run, Some(token)))
  }

  ghost predicate RunningUnder(t: Table, run: RunId, token: Token) {
    run in t && t[run].state == Running && t[run].token == Some(token)
  }

  // ---------------------------------------------------------------- steps along a trace

  lemma RowAt(tr: Trace, n: nat, run: RunId)
    requires tr.Valid() && n < |tr.labels| && run in tr.states[n].rows
    ensures run in tr.states[n + 1].rows
    ensures Shaped(tr.states[n].rows[run]) && Shaped(tr.states[n + 1].rows[run])
    ensures Moves(tr.states[n].rows[run], tr.states[n + 1].rows[run], tr.states[n].seen, tr.states[n + 1].seen)
  {
    Reachable(tr, n);
    Reachable(tr, n + 1);
    RowMoves(tr.states[n], tr.labels[n], tr.states[n + 1], run);
  }

  /** Rows and seen tokens are never taken away. */
  lemma {:induction false} Grows(tr: Trace, i: nat, n: nat)
    requires tr.Valid() && i <= n < |tr.states|
    ensures tr.states[i].rows.Keys <= tr.states[n].rows.Keys
    ensures tr.states[i].seen <= tr.states[n].seen
  {
    if i < n {
      Grows(tr, i, n - 1);
      Reachable(tr, n - 1);
      forall r | r in tr.states[n - 1].rows ensures r in tr.states[n].rows { RowAt(tr, n - 1, r); }
      if !tr.labels[n - 1].BatchCommit? { SeenGrows(tr.states[n - 1], tr.labels[n - 1], tr.states[n]); }
    }
  }

  /** A token the row is no longer alive under stays so in every later state. */
  lemma {:induction false} DeadForever(tr: Trace, n: nat, m: nat, run: RunId, token: Token)
    requires tr.Valid() && n <= m < |tr.states|
    requires run in tr.states[n].rows && token in tr.states[n].seen && !IsAlive(tr.states[n].rows, run, token)
    ensures run in tr.states[m].rows && !IsAlive(tr.states[m].rows, run, token)
  {
    if n < m {
      DeadForever(tr, n, m - 1, run, token);
      Grows(tr, n, m - 1);
      RowAt(tr, m - 1, run);
    }
  }

  /** A run that left RUNNING under a token never runs under it again, even while it is still cancelling. */
  lemma {:induction false} NeverRunsAgain(tr: Trace, n: nat, m: nat, run: RunId, token: Token)
    requires tr.Valid() && n <= m < |tr.states|
    requires run in tr.states[n].rows && token in tr.states[n].seen && !RunningUnder(tr.states[n].rows, run, token)
    ensures run in tr.states[m].rows && !RunningUnder(tr.states[m].rows, run, token)
  {
    if n < m {
      NeverRunsAgain(tr, n, m - 1, run, token);
      Grows(tr, n, m - 1);
      RowAt(tr, m - 1, run);
    }
  }

  lemma TokenBecomesSeen(tr: Trace, i: nat, run: RunId, token: Token)
    requires tr.Valid() && ClaimedAt(tr, i, run, token)
    ensures token !in tr.states[i].seen && token in tr.states[i + 1].seen
  {
    RowAt(tr, i, run);
  }

  // ---------------------------------------------------------------- fencing

  lemma LaterClaimIsFresh(tr: Trace, i: nat, j: nat, run: RunId, other: RunId, a: Token, b: Token)
    requires tr.Valid() && i < j && ClaimedAt(tr, i, run, a) && ClaimedAt(tr, j, other, b)
    ensures a != b
  {
    TokenBecomesSeen(tr, i, run, a);
    TokenBecomesSeen(tr, j, other, b);
    Grows(tr, i + 1, j);
  }

  lemma OneStepClaimsApart(s: State, l: Label, s': State, run: RunId, other: RunId)
    requires Inv(s) && Step(s, l, s') && run != other
    requires IsQueued(s.rows, run) && run in s'.rows && s'.rows[run].state == Running
    requires IsQueued(s.rows, other) && other in s'.rows && s'.rows[other].state == Running
    ensures s'.rows[run].token != s'.rows[other].token
  {
    ClaimCause(s, l, s', run);
    ClaimCause(s, l, s', other);
    assert l.BatchCommit? && BatchSound(s, s.batches[l.tx]);
  }

  lemma SameStepClaimsDiffer(tr: Trace, i: nat, run: RunId, other: RunId, a: Token, b: Token)
    requires tr.Valid() && ClaimedAt(tr, i, run, a) && ClaimedAt(tr, i, other, b) && run != other
    ensures a != b
  {
    Reachable(tr, i);
    OneStepClaimsApart(tr.states[i], tr.labels[i], tr.states[i + 1], run, other);
  }

  /** No two claims anywhere, of the same run or of different ones, ever get the same token. */
  lemma TokensNeverReused(tr: Trace, i: nat, j: nat, run: RunId, other: RunId, a: Token, b: Token)
    requires tr.Valid() && ClaimedAt(tr, i, run, a) && ClaimedAt(tr, j, other, b)
    requires i != j || run != other
    ensures a != b
  {
    if i < j {
      LaterClaimIsFresh(tr, i, j, run, other, a, b);
    } else if j < i {
      LaterClaimIsFresh(tr, j, i, other, run, b, a);
    } else {
      SameStepClaimsDiffer(tr, i, run, other, a, b);
    }
  }

  lemma DeadWriteIsNoop(s: State, l: Label, s': State, run: RunId, token: Token)
    requires Step(s, l, s') && !IsAlive(s.rows, run, token) && WritesUnder(l, run, token)
    ensures s'.rows == s.rows
  {
  }

  /** Once a run is claimed again, no write under an earlier claim's token ever changes any row. */
  lemma Fencing(tr: Trace, i: nat, j: nat, k: nat, run: RunId, a: Token, b: Token)
    requires tr.Valid() && i < j < k < |tr.labels|
    requires ClaimedAt(tr, i, run, a) && ClaimedAt(tr, j, run, b)
    requires WritesUnder(tr.labels[k], run, a)
    ensures tr.states[k + 1].rows == tr.states[k].rows
  {
    TokensNeverReused(tr, i, j, run, run, a, b);
    TokenBecomesSeen(tr, i, run, a);
    Grows(tr, i + 1, j + 1);
    DeadForever(tr, j + 1, k, run, a);
    DeadWriteIsNoop(tr.states[k], tr.labels[k], tr.states[k + 1], run, a);
  }

  /** A row with an attempt under way carries the token of its latest claim, never null. */
  lemma {:induction false} LatestClaim(tr: Trace, n: nat, run: RunId) returns (i: nat)
    requires tr.Valid() && n < |tr.states| && run in tr.states[n].rows && tr.states[n].rows[run].state.Live()
    ensures i < n && tr.states[n].rows[run].token.Some?
    ensures ClaimedAt(tr, i, run, tr.states[n].rows[run].token.value)
    ensures forall j | i < j < n :: !Crossed(tr, j, run, Queued, Running)
  {
    Reachable(tr, n - 1);
    if run !in tr.states[n - 1].rows {
      NewRows(tr.states[n - 1], tr.labels[n - 1], tr.states[n], run);
      assert false;
    }
    RowAt(tr, n - 1, run);
    if tr.states[n - 1].rows[run].state == Queued {
      i := n - 1;
    } else {
      i := LatestClaim(tr, n - 1, run);
    }
  }

  /** A write under the token the row is RUNNING under takes effect, with what it carries. */
  lemma HolderWritesLand(s: State, l: Label, s': State, run: RunId, token: Token)
    requires Step(s, l, s') && RunningUnder(s.rows, run, token) && WritesUnder(l, run, token)
    ensures run in s'.rows && s'.rows[run].heartbeatAt == Some(l.at) && s'.rows[run].token == Some(token)
    ensures l.Succeed? ==> s'.rows[run].state == Succeeded && s'.rows[run].result == l.result
    ensures l.Fail? || l.SweepRunning? ==> s'.rows[run].state == Failed && s'.rows[run].error == l.error
    ensures l.Record? ==> s'.rows[run].state == Running && s'.rows[run].runtimeExecution == Some(l.exec)
    ensures l.Heartbeat? ==> s'.rows[run].state == Running
  {
  }

  /** The claim made at step `i` has been RUNNING without a break in every state up to `n`. */
  ghost predicate HeldSince(tr: Trace, i: nat, n: nat, run: RunId, token: Token)
    requires n < |tr.states|
  {
    forall j | i < j <= n :: RunningUnder(tr.states[j].rows, run, token)
  }

  /** A claim that is RUNNING now never stopped being so. */
  lemma HeldIff(tr: Trace, i: nat, n: nat, run: RunId, token: Token)
    requires tr.Valid() && ClaimedAt(tr, i, run, token) && i < n < |tr.states|
    ensures RunningUnder(tr.states[n].rows, run, token) <==> HeldSince(tr, i, n, run, token)
  {
    if RunningUnder(tr.states[n].rows, run, token) { RanAllAlong(tr, i + 1, n, run, token); }
  }

  /**
    The partner of fencing, exactly: a completion write, of the worker or of the sweeper, under a claim's token
    changes the table if and only if that claim has been RUNNING in every state since it was made, and then it
    leaves what it carries.
   */
  lemma CompletionLandsIff(tr: Trace, i: nat, k: nat, run: RunId, token: Token)
    requires tr.Valid() && ClaimedAt(tr, i, run, token) && i < k < |tr.labels|
    requires WritesUnder(tr.labels[k], run, token) && !tr.labels[k].Record? && !tr.labels[k].Heartbeat?
    ensures tr.states[k + 1].rows != tr.states[k].rows <==> HeldSince(tr, i, k, run, token)
    ensures HeldSince(tr, i, k, run, token) ==>
              && run in tr.states[k + 1].rows
              && (if tr.labels[k].Succeed?
                  then tr.states[k + 1].rows[run].state == Succeeded
                       && tr.states[k + 1].rows[run].result == tr.labels[k].result
                  else tr.states[k + 1].rows[run].state == Failed
                       && tr.states[k + 1].rows[run].error == tr.labels[k].error)
  {
    HeldIff(tr, i, k, run, token);
    if RunningUnder(tr.states[k].rows, run, token) {
      HolderWritesLand(tr.states[k], tr.labels[k], tr.states[k + 1], run, token);
    } else {
      LateCompletion(tr.states[k], tr.labels[k], tr.states[k + 1], run, token);
    }
  }

  lemma LateCompletion(s: State, l: Label, s': State, run: RunId, token: Token)
    requires Step(s, l, s') && !RunningUnder(s.rows, run, token)
    requires WritesUnder(l, run, token) && !l.Record? && !l.Heartbeat?
    ensures s'.rows == s.rows
  {
  }

  /** A heartbeat is answered exactly if its claim has been alive, RUNNING or CANCELLING, in every state since. */
  lemma {:induction false} AliveIff(tr: Trace, i: nat, n: nat, run: RunId, token: Token)
    requires tr.Valid() && ClaimedAt(tr, i, run, token) && i < n < |tr.states|
    ensures IsAlive(tr.states[n].rows, run, token) <==> forall j | i < j <= n :: IsAlive(tr.states[j].rows, run, token)
  {
    if n > i + 1 {
      AliveIff(tr, i, n - 1, run, token);
      TokenBecomesSeen(tr, i, run, token);
      Grows(tr, i + 1, n - 1);
      if !IsAlive(tr.states[n - 1].rows, run, token) { DeadForever(tr, n - 1, n, run, token); }
    }
  }

  /** What ends an attempt: success is written only by the holder of the latest claim, under its token. */
  lemma SuccessComesFromLatestClaim(tr: Trace, k: nat, run: RunId) returns (i: nat)
    requires tr.Valid() && Crossed(tr, k, run, Running, Succeeded)
    ensures i < k && tr.labels[k].Succeed? && tr.labels[k].claim.run == run
    ensures tr.states[k + 1].rows[run].result == tr.labels[k].result
    ensures ClaimedAt(tr, i, run, tr.labels[k].claim.token)
    ensures forall j | i < j < k :: !Crossed(tr, j, run, Queued, Running)
  {
    i := LatestClaim(tr, k, run);
    Reachable(tr, k);
    EndedByTarget(tr.states[k], tr.labels[k], tr.states[k + 1], run);
    SuccessCause(tr.states[k], tr.labels[k], tr.states[k + 1], run);
  }

  /** A run that succeeded keeps its row, with the result its holder reported, whatever any caller still writes. */
  lemma {:induction false} SuccessIsFinal(tr: Trace, k: nat, n: nat, run: RunId)
    requires tr.Valid() && k < n < |tr.states| && Crossed(tr, k, run, Running, Succeeded)
    ensures tr.labels[k].Succeed? && run in tr.states[n].rows
    ensures tr.states[n].rows[run] == tr.states[k + 1].rows[run] && tr.states[n].rows[run].result == tr.labels[k].result
  {
    if n == k + 1 {
      var _ := SuccessComesFromLatestClaim(tr, k, run);
    } else {
      SuccessIsFinal(tr, k, n - 1, run);
      RowAt(tr, n - 1, run);
    }
  }

  /** ... and failure only by that holder or by a sweep that listed exactly that claim. */
  lemma FailureComesFromLatestClaim(tr: Trace, k: nat, run: RunId) returns (i: nat)
    requires tr.Valid() && Crossed(tr, k, run, Running, Failed)
    ensures i < k && tr.states[k].rows[run].token.Some?
    ensures var token := tr.states[k].rows[run].token.value;
            && ClaimedAt(tr, i, run, token)
            && (|| (tr.labels[k].Fail? && tr.labels[k].claim == Claim(run, token))
                || (tr.labels[k].SweepRunning? && tr.labels[k].item == Listed(run, Some(token))))
            && tr.states[k + 1].rows[run].error == tr.labels[k].error
    ensures forall j | i < j < k :: !Crossed(tr, j, run, Queued, Running)
  {
    i := LatestClaim(tr, k, run);
    Reachable(tr, k);
    EndedByTarget(tr.states[k], tr.labels[k], tr.states[k + 1], run);
    FailureCause(tr.states[k], tr.labels[k], tr.states[k + 1], run);
  }

  /**
    Once a heartbeat finds nothing for a pair a claim handed out, every later heartbeat,
    completion write and proxy request with that token fails for ever.
   */
  lemma DeadTokensStayDead(tr: Trace, n: nat, m: nat, c: Claim)
    requires tr.Valid() && n <= m < |tr.states| && c in tr.states[n].handed
    requires !IsAlive(tr.states[n].rows, c.run, c.token)
    ensures var t := tr.states[m].rows;
            && !IsAlive(t, c.run, c.token)
            && !IsRunningUnder(t, c.run, Some(c.token))
            && !ProxyAdmits(t, c.run, Some(c.token))
    ensures m < |tr.labels| && WritesUnder(tr.labels[m], c.run, c.token) ==> tr.states[m + 1].rows == tr.states[m].rows
  {
    Reachable(tr, n);
    DeadForever(tr, n, m, c.run, c.token);
    Reachable(tr, m);
    assert Shaped(tr.states[m].rows[c.run]);
    if m < |tr.labels| && WritesUnder(tr.labels[m], c.run, c.token) {
      DeadWriteIsNoop(tr.states[m], tr.labels[m], tr.states[m + 1], c.run, c.token);
    }
  }

  /** The proxy's dispatch check is never skipped: it admits exactly the token of the latest claim. */
  lemma ProxyAdmitsOnlyLatestClaim(tr: Trace, n: nat, run: RunId, token: Option<Token>) returns (i: nat)
    requires tr.Valid() && n < |tr.states| && ProxyAdmits(tr.states[n].rows, run, token)
    ensures i < n && token.Some? && ClaimedAt(tr, i, run, token.value)
    ensures forall j | i < j < n :: !Crossed(tr, j, run, Queued, Running)
  {
    i := LatestClaim(tr, n, run);
  }

  // ---------------------------------------------------------------- sweeping

  /** An item enters the list only by a query that found it RUNNING under the token it lists. */
  lemma Lists(s: State, l: Label, s': State, item: Listed)
    requires Step(s, l, s') && item in s'.listedRunning && item !in s.listedRunning
    ensures l.ListRunning? && item.run in l.listed && item.run in s.rows && item.fence == s.rows[item.run].token
    ensures StaleIn(s.rows[item.run], Running, l.cutoff)
  {
    assert l.ListRunning?;
    assert item.run in StaleKeys(s.rows, Running, l.cutoff);
  }

  lemma {:induction false} ListedBefore(tr: Trace, n: nat, item: Listed) returns (i: nat)
    requires tr.Valid() && n < |tr.states| && item in tr.states[n].listedRunning
    ensures i < n && tr.labels[i].ListRunning? && item.run in tr.labels[i].listed
    ensures item.fence.Some? && RunningUnder(tr.states[i].rows, item.run, item.fence.value)
    ensures StaleIn(tr.states[i].rows[item.run], Running, tr.labels[i].cutoff)
  {
    if n > 0 && item in tr.states[n - 1].listedRunning {
      i := ListedBefore(tr, n - 1, item);
    } else {
      assert n > 0;
      i := n - 1;
      Reachable(tr, i);
      Lists(tr.states[i], tr.labels[i], tr.states[n], item);
      assert Shaped(tr.states[i].rows[item.run]);
    }
  }

  /** Between two moments at which a run is RUNNING under one token, it was so all along, on one attempt. */
  lemma {:induction false} RanAllAlong(tr: Trace, i: nat, n: nat, run: RunId, token: Token)
    requires tr.Valid() && i <= n < |tr.states|
    requires RunningUnder(tr.states[i].rows, run, token) && RunningUnder(tr.states[n].rows, run, token)
    ensures forall j | i <= j <= n ::
              && RunningUnder(tr.states[j].rows, run, token)
              && tr.states[j].rows[run].attempt == tr.states[i].rows[run].attempt
  {
    if i < n {
      Reachable(tr, i);
      Grows(tr, i, n - 1);
      if !RunningUnder(tr.states[n - 1].rows, run, token) { NeverRunsAgain(tr, n - 1, n, run, token); }
      RanAllAlong(tr, i, n - 1, run, token);
      RowAt(tr, n - 1, run);
    }
  }

  lemma SweepOf(s: State, l: Label)
    requires l.SweepRunning? && Enabled(s, l)
    ensures l.item in s.listedRunning
  {
  }

  lemma SweepStops(s: State, l: Label, s': State, run: RunId, token: Token)
    requires Step(s, l, s') && l.SweepRunning? && l.item == Listed(run, Some(token))
    ensures !RunningUnder(s'.rows, run, token)
    ensures s'.rows != s.rows ==> RunningUnder(s.rows, run, token)
  {
  }

  lemma SweptForGood(tr: Trace, k: nat, m: nat, run: RunId, token: Token)
    requires tr.Valid() && k < |tr.labels| && tr.labels[k].SweepRunning? && k < m < |tr.states|
    requires tr.labels[k].item == Listed(run, Some(token)) && tr.labels[k].item in tr.states[k].listedRunning
    ensures !RunningUnder(tr.states[m].rows, run, token)
    ensures tr.states[k + 1].rows != tr.states[k].rows ==> RunningUnder(tr.states[k].rows, run, token)
  {
    SweepStops(tr.states[k], tr.labels[k], tr.states[k + 1], run, token);
    Reachable(tr, k);
    Grows(tr, k, k + 1);
    NeverRunsAgain(tr, k + 1, m, run, token);
  }

  /**
    The fenced sweep fails a row only if the listed attempt ran from the listing to the write,
    and whatever it found, that attempt is never RUNNING again.
   */
  lemma SweepFailsOnlyTheListedAttempt(tr: Trace, k: nat, m: nat) returns (i: nat)
    requires tr.Valid() && k < |tr.labels| && tr.labels[k].SweepRunning? && k < m < |tr.states|
    ensures var item := tr.labels[k].item;
            && i < k && tr.labels[i].ListRunning? && item.run in tr.labels[i].listed && item.fence.Some?
            && RunningUnder(tr.states[i].rows, item.run, item.fence.value)
            && !RunningUnder(tr.states[m].rows, item.run, item.fence.value)
            && (tr.states[k + 1].rows != tr.states[k].rows ==>
                  forall j | i <= j <= k ::
                    && RunningUnder(tr.states[j].rows, item.run, item.fence.value)
                    && tr.states[j].rows[item.run].attempt == tr.states[i].rows[item.run].attempt)
  {
    var item := tr.labels[k].item;
    SweepOf(tr.states[k], tr.labels[k]);
    i := ListedBefore(tr, k, item);
    SweptForGood(tr, k, m, item.run, item.fence.value);
    if tr.states[k + 1].rows != tr.states[k].rows { RanAllAlong(tr, i, k, item.run, item.fence.value); }
  }

  lemma ListsCancelling(s: State, l: Label, s': State, run: RunId)
    requires Step(s, l, s') && run in s'.listedCancelling && run !in s.listedCancelling
    ensures l.ListCancelling? && run in l.listed && run in s.rows && s.rows[run].state == Cancelling
  {
    assert l.ListCancelling?;
    assert run in StaleKeys(s.rows, Cancelling, l.cutoff);
  }

  lemma {:induction false} ListedCancellingBefore(tr: Trace, n: nat, run: RunId) returns (i: nat)
    requires tr.Valid() && n < |tr.states| && run in tr.states[n].listedCancelling
    ensures i < n && tr.labels[i].ListCancelling? && run in tr.labels[i].listed
    ensures run in tr.states[i].rows && tr.states[i].rows[run].state == Cancelling
  {
    if run in tr.states[n - 1].listedCancelling {
      i := ListedCancellingBefore(tr, n - 1, run);
    } else {
      ListsCancelling(tr.states[n - 1], tr.labels[n - 1], tr.states[n], run);
      i := n - 1;
    }
  }

  /** CANCELLING leads only to CANCELLED, which is absorbing, and neither changes the attempt or its token. */
  lemma {:induction false} CancelIsOneWay(tr: Trace, i: nat, n: nat, run: RunId)
    requires tr.Valid() && i <= n < |tr.states|
    requires run in tr.states[i].rows && tr.states[i].rows[run].state in {Cancelling, Cancelled}
    ensures run in tr.states[n].rows && tr.states[n].rows[run].state in {Cancelling, Cancelled}
    ensures tr.states[i].rows[run].state == Cancelled ==> tr.states[n].rows[run] == tr.states[i].rows[run]
    ensures tr.states[n].rows[run].token == tr.states[i].rows[run].token
    ensures tr.states[n].rows[run].attempt == tr.states[i].rows[run].attempt
  {
    if i < n {
      CancelIsOneWay(tr, i, n - 1, run);
      RowAt(tr, n - 1, run);
    }
  }

  /** The unfenced sweep never meets an attempt newer than the one listed, although it carries no token. */
  lemma UnfencedSweepIsSafe(tr: Trace, k: nat) returns (i: nat)
    requires tr.Valid() && k < |tr.labels| && tr.labels[k].SweepCancelling?
    ensures var run := tr.labels[k].run;
            && i < k && tr.labels[i].ListCancelling? && run in tr.labels[i].listed
            && run in tr.states[i].rows && tr.states[i].rows[run].state == Cancelling
            && (forall j | i <= j <= k + 1 ::
                  && run in tr.states[j].rows
                  && tr.states[j].rows[run].state in {Cancelling, Cancelled}
                  && tr.states[j].rows[run].token == tr.states[i].rows[run].token
                  && tr.states[j].rows[run].attempt == tr.states[i].rows[run].attempt)
            && tr.states[k + 1].rows[run].state == Cancelled
            && (tr.states[k].rows[run].state == Cancelling ==> tr.states[k + 1].rows[run].error == tr.labels[k].error)
  {
    var run := tr.labels[k].run;
    assert Step(tr.states[k], tr.labels[k], tr.states[k + 1]);
    i := ListedCancellingBefore(tr, k, run);
    forall j | i <= j <= k + 1
      ensures run in tr.states[j].rows && tr.states[j].rows[run].state in {Cancelling, Cancelled}
      ensures tr.states[j].rows[run].token == tr.states[i].rows[run].token
      ensures tr.states[j].rows[run].attempt == tr.states[i].rows[run].attempt
    {
      CancelIsOneWay(tr, i, j, run);
    }
  }

  // ---------------------------------------------------------------- rows

  /** The shape of every row of every reachable state. */
  lemma EveryRowIsShaped(tr: Trace, n: nat, run: RunId)
    requires tr.Valid() && n < |tr.states| && run in tr.states[n].rows
    ensures var row := tr.states[n].rows[run];
            && (row.endedAt.Some? <==> row.state in {Succeeded, Failed, Cancelled})
            && (row.heartbeatAt.None? <==> row.state == Queued)
            && (row.state in {Running, Cancelling} ==> row.startedAt.Some? && row.token.Some?)
            && (row.result.Some? ==> row.state == Succeeded)
            && (row.error.Some? ==> row.state in {Failed, Cancelled})
  {
    Reachable(tr, n);
    assert Shaped(tr.states[n].rows[run]);
  }

  /** The step is the sweeper's query for rows in `state`. */
  ghost predicate Queries(l: Label, state: RunState) {
    (l.ListRunning? && state == Running) || (l.ListCancelling? && state == Cancelling)
  }

  /**
    What either query of the sweeper lists depends on when an attempt started and on nothing else, least of all its
    heartbeat: a run that is listed is in that state and started before the cutoff, and one that is not, although it
    is and did, lost its place to a full answer of attempts that started no later.
   */
  lemma ListedByStart(tr: Trace, n: nat, state: RunState, run: RunId)
    requires tr.Valid() && n < |tr.labels| && Queries(tr.labels[n], state)
    ensures var rows, l := tr.states[n].rows, tr.labels[n];
            && (run in l.listed ==> run in rows && StaleIn(rows[run], state, l.cutoff))
            && (run in rows && StaleIn(rows[run], state, l.cutoff) && run !in l.listed ==>
                  && |l.listed| == l.limit
                  && forall r | r in l.listed ::
                       r in rows && rows[r].startedAt.Some? && rows[r].startedAt.value <= rows[run].startedAt.value)
  {
    assert Step(tr.states[n], tr.labels[n], tr.states[n + 1]);
    var l, keys := tr.labels[n], StaleKeys(tr.states[n].rows, state, tr.labels[n].cutoff);
    if run in keys && run !in l.listed && |l.listed| < l.limit {
      Selection.ShortAnswerIsComplete(keys, l.limit, l.listed);
    }
    forall r | r in l.listed ensures r in keys { }
    if run in keys && run !in l.listed {
      forall r | r in l.listed ensures keys[r] <= keys[run] { }
    }
  }

  /**
    No row with an attempt under way is invisible to its sweep: an answer shorter than its limit lists a RUNNING row,
    or a CANCELLING one, exactly if it started before the cutoff, however fresh its heartbeat is.
   */
  lemma NoStaleRunIsInvisible(tr: Trace, n: nat, state: RunState, run: RunId)
    requires tr.Valid() && n < |tr.labels| && Queries(tr.labels[n], state)
    requires |tr.labels[n].listed| < tr.labels[n].limit
    requires run in tr.states[n].rows && tr.states[n].rows[run].state == state
    ensures tr.states[n].rows[run].startedAt.Some?
    ensures run in tr.labels[n].listed <==> tr.states[n].rows[run].startedAt.value < tr.labels[n].cutoff
  {
    Reachable(tr, n);
    assert Shaped(tr.states[n].rows[run]);
    ListedByStart(tr, n, state, run);
  }

  /** What a run executes, snapshot included, never changes. */
  lemma {:induction false} JobIsFixed(tr: Trace, i: nat, n: nat, run: RunId)
    requires tr.Valid() && i <= n < |tr.states| && run in tr.states[i].rows
    ensures run in tr.states[n].rows && tr.states[n].rows[run].job == tr.states[i].rows[run].job
  {
    if i < n {
      JobIsFixed(tr, i, n - 1, run);
      RowAt(tr, n - 1, run);
    }
  }

  /** The read behind a pending redrive. */
  lemma {:induction false} RedriveReadBefore(tr: Trace, n: nat, q: Req) returns (i: nat)
    requires tr.Valid() && n < |tr.states| && q in tr.states[n].redriving
    ensures var ticket := tr.states[n].redriving[q];
            i < n && ticket.run in tr.states[i].rows && ticket.row == tr.states[i].rows[ticket.run]
  {
    if q in tr.states[n - 1].redriving && tr.states[n].redriving[q] == tr.states[n - 1].redriving[q] {
      i := RedriveReadBefore(tr, n - 1, q);
    } else {
      RedriveTicketRead(tr.states[n - 1], tr.labels[n - 1], tr.states[n], q);
      i := n - 1;
    }
  }

  lemma RedriveTicketRead(s: State, l: Label, s': State, q: Req)
    requires Step(s, l, s') && q in s'.redriving && !(q in s.redriving && s'.redriving[q] == s.redriving[q])
    ensures s'.redriving[q].run in s.rows && s'.redriving[q].row == s.rows[s'.redriving[q].run]
  {
  }

  /** A redriven run executes what its source does, although the source was read in an earlier step. */
  lemma RedriveRepeatsJob(tr: Trace, k: nat)
    requires tr.Valid() && k < |tr.labels| && tr.labels[k].RedriveInsert? && tr.labels[k].newRun !in tr.states[k].rows
    ensures var l, rows := tr.labels[k], tr.states[k + 1].rows;
            && l.newRun in rows && rows[l.newRun].parent.Some? && rows[l.newRun].parent.value in rows
            && rows[l.newRun].job == rows[rows[l.newRun].parent.value].job
            && rows[l.newRun].state == Queued && rows[l.newRun].attempt == 1
            && forall r | r in tr.states[k].rows :: r in rows && rows[r] == tr.states[k].rows[r]
  {
    var l := tr.labels[k];
    assert Step(tr.states[k], l, tr.states[k + 1]);
    var i := RedriveReadBefore(tr, k, l.req);
    JobIsFixed(tr, i, k, tr.states[k].redriving[l.req].run);
  }

  // ---------------------------------------------------------------- batch claims

  /** An open transaction keeps its rows and its clock reading, whatever the others do. */
  lemma BatchStep(s: State, l: Label, s': State, tx: TxId)
    requires Step(s, l, s') && tx in s'.batches && tx in s.batches
    ensures s'.batches[tx].locked == s.batches[tx].locked && s'.batches[tx].at == s.batches[tx].at
    ensures l != BatchCommit(tx)
  {
  }

  lemma BatchWaits(s: State, l: Label, s': State, tx: TxId)
    requires Inv(s) && Step(s, l, s') && tx in s'.batches && tx in s.batches
    ensures s'.batches[tx].locked == s.batches[tx].locked && s'.batches[tx].at == s.batches[tx].at
    ensures forall r | r in s.batches[tx].locked :: r in s.rows && r in s'.rows && s'.rows[r] == s.rows[r]
  {
    BatchStep(s, l, s', tx);
    forall r | r in s.batches[tx].locked ensures r in s.rows && r in s'.rows && s'.rows[r] == s.rows[r] {
      LockedRowsStay(s, l, s', tx, r);
    }
  }

  lemma BatchOpens(s: State, l: Label, s': State, tx: TxId)
    requires Step(s, l, s') && tx in s'.batches && tx !in s.batches
    ensures l.BatchSelect? && l.tx == tx
    ensures s'.batches[tx].locked == Members(l.candidates) && s'.batches[tx].at == l.at && s'.rows == s.rows
    ensures forall r | r in l.candidates :: r in s.rows
  {
    forall r | l.BatchSelect? && r in l.candidates ensures r in s.rows { assert r in QueuedKeys(s); }
  }

  lemma WaitsAt(tr: Trace, p: nat, tx: TxId)
    requires tr.Valid() && p < |tr.labels| && tx in tr.states[p].batches && tx in tr.states[p + 1].batches
    ensures tr.states[p + 1].batches[tx].locked == tr.states[p].batches[tx].locked
    ensures tr.states[p + 1].batches[tx].at == tr.states[p].batches[tx].at
    ensures forall r | r in tr.states[p].batches[tx].locked ::
              r in tr.states[p].rows && r in tr.states[p + 1].rows && tr.states[p + 1].rows[r] == tr.states[p].rows[r]
  {
    Reachable(tr, p);
    BatchWaits(tr.states[p], tr.labels[p], tr.states[p + 1], tx);
  }

  /** The SELECT an open transaction started with; its rows have not moved since. */
  lemma {:induction false} BatchOrigin(tr: Trace, n: nat, tx: TxId) returns (i: nat)
    requires tr.Valid() && n < |tr.states| && tx in tr.states[n].batches
    ensures i < n && tr.labels[i].BatchSelect? && tr.labels[i].tx == tx
    ensures tr.states[n].batches[tx].locked == Members(tr.labels[i].candidates)
    ensures tr.states[n].batches[tx].at == tr.labels[i].at
    ensures forall r | r in tr.labels[i].candidates ::
              r in tr.states[i].rows && r in tr.states[n].rows && tr.states[n].rows[r] == tr.states[i].rows[r]
  {
    var p := n - 1;
    if tx in tr.states[p].batches {
      i := BatchOrigin(tr, p, tx);
      WaitsAt(tr, p, tx);
      assert forall r | r in tr.labels[i].candidates :: r in tr.states[p].batches[tx].locked;
    } else {
      i := p;
      BatchOpens(tr.states[p], tr.labels[p], tr.states[n], tx);
    }
  }

  lemma SelectsOldest(s: State, l: Label, s': State)
    requires Step(s, l, s') && l.BatchSelect?
    ensures Selection.Oldest(QueuedKeys(s), l.limit, l.candidates) && |l.candidates| <= l.limit
  {
  }

  lemma CommitEffect(s: State, tx: TxId, s': State)
    requires tx in s.batches && StagedClaims(s, s.batches[tx]) && s' == Apply(s, BatchCommit(tx))
    ensures var b := s.batches[tx];
            && (forall r | r in b.claimed ::
                  && IsQueued(s.rows, r) && r in s'.rows
                  && s'.rows[r] == ClaimedRow(s.rows[r], b.claimed[r], b.at)
                  && Claim(r, b.claimed[r]) in s'.handed)
            && s'.rows.Keys == s.rows.Keys
            && (forall r | r in s.rows && r !in b.claimed :: s'.rows[r] == s.rows[r])
  {
    var b := s.batches[tx];
    assert s'.rows == s.rows + b.staged && s'.handed == s.handed + b.Reported();
    forall r | r in b.claimed ensures Claim(r, b.claimed[r]) in s'.handed {
      assert Claim(r, b.claimed[r]) in b.Reported();
    }
  }

  /**
    A committed batch, although no UPDATE's row count was looked at: every reported pair is a row this
    transaction moved from QUEUED to RUNNING under that token, nothing else changed, and the batch is the
    oldest `limit` rows that were QUEUED and unlocked at its SELECT.
   */
  lemma BatchClaimIsSound(tr: Trace, k: nat, tx: TxId) returns (i: nat)
    requires tr.Valid() && k < |tr.labels| && tr.labels[k] == BatchCommit(tx)
    ensures i < k && tr.labels[i].BatchSelect? && tr.labels[i].tx == tx
    ensures Selection.Oldest(QueuedKeys(tr.states[i]), tr.labels[i].limit, tr.labels[i].candidates)
    ensures tx in tr.states[k].batches
    ensures var b := tr.states[k].batches[tx];
            && b.claimed.Keys == Members(tr.labels[i].candidates)
            && |b.claimed| <= tr.labels[i].limit
            && (forall r | r in b.claimed ::
                  && ClaimedAt(tr, k, r, b.claimed[r])
                  && r in tr.states[i].rows
                  && tr.states[k + 1].rows[r] ==
                       tr.states[i].rows[r].(state := Running, token := Some(b.claimed[r]),
                                             startedAt := Some(tr.labels[i].at), heartbeatAt := Some(tr.labels[i].at))
                  && Claim(r, b.claimed[r]) in tr.states[k + 1].handed)
            && tr.states[k + 1].rows.Keys == tr.states[k].rows.Keys
            && (forall r | r in tr.states[k].rows && r !in b.claimed ::
                  tr.states[k + 1].rows[r] == tr.states[k].rows[r])
  {
    assert Step(tr.states[k], BatchCommit(tx), tr.states[k + 1]);
    i := BatchOrigin(tr, k, tx);
    SelectsOldest(tr.states[i], tr.labels[i], tr.states[i + 1]);
    Reachable(tr, k);
    SoundBatchesStageClaims(tr.states[k]);
    CommitEffect(tr.states[k], tx, tr.states[k + 1]);
    Selection.SetNoLarger(tr.labels[i].candidates);
    assert |tr.states[k].batches[tx].claimed| == |tr.states[k].batches[tx].claimed.Keys|;
  }

  /** Transactions open at the same time claim different rows under different tokens. */
  lemma ConcurrentBatchesAreDisjoint(tr: Trace, n: nat, tx: TxId, ty: TxId)
    requires tr.Valid() && n < |tr.states| && tx != ty
    requires tx in tr.states[n].batches && ty in tr.states[n].batches
    ensures tr.states[n].batches[tx].locked !! tr.states[n].batches[ty].locked
    ensures tr.states[n].batches[tx].Reported() !! tr.states[n].batches[ty].Reported()
    ensures tr.states[n].batches[tx].claimed.Values !! tr.states[n].batches[ty].claimed.Values
  {
    Reachable(tr, n);
    assert Apart(tr.states[n].batches[tx], tr.states[n].batches[ty]);
    assert BatchSound(tr.states[n], tr.states[n].batches[tx]) && BatchSound(tr.states[n], tr.states[n].batches[ty]);
  }
}
