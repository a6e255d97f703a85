/** Counting laws of the run protocol: how often a run can be claimed, finished, cancelled and retried. */
module RunAccounting {
  import opened Options
  import opened RunTable
  import opened RunProtocol
  import opened RunInvariant
  import opened RunTheorems

  /** How often the first `n` steps took `run` from `a` to `b`. */
  ghost function Count(tr: Trace, run: RunId, a: RunState, b: RunState, n: nat): nat {
    if n == 0 then 0 else Count(tr, run, a, b, n - 1) + (if Crossed(tr, n - 1, run, a, b) then 1 else 0)
  }

  ghost function One(condition: bool): nat { if condition then 1 else 0 }

  ghost function Retries(tr: Trace, run: RunId, n: nat): nat { Count(tr, run, Failed, Queued, n) }

  // ---------------------------------------------------------------- conservation

  /** How often a run went along each edge of the state diagram. */
  datatype Ledger = Ledger(claims: nat, queuedCancels: nat, successes: nat, failures: nat, cancelRequests: nat,
                           cancels: nat, retries: nat)

  ghost function LedgerAt(tr: Trace, run: RunId, n: nat): Ledger {
    Ledger(Count(tr, run, Queued, Running, n), Count(tr, run, Queued, Cancelled, n),
           Count(tr, run, Running, Succeeded, n), Count(tr, run, Running, Failed, n),
           Count(tr, run, Running, Cancelling, n), Count(tr, run, Cancelling, Cancelled, n),
           Count(tr, run, Failed, Queued, n))
  }

  /** The books of a run that is in state `st`: everything that entered a state has left it or is still there. */
  ghost predicate Books(l: Ledger, st: RunState) {
    && 1 + l.retries == l.claims + l.queuedCancels + One(st == Queued)
    && l.claims == l.successes + l.failures + l.cancelRequests + One(st == Running)
    && l.failures == l.retries + One(st == Failed)
    && l.cancelRequests == l.cancels + One(st == Cancelling)
    && l.queuedCancels + l.cancels == One(st == Cancelled)
    && l.successes == One(st == Succeeded)
  }

  /** One more passage from `a` to `b`. */
  ghost function Enter(l: Ledger, a: RunState, b: RunState): Ledger {
    match (a, b)
    case (Queued, Running) => l.(claims := l.claims + 1)
    case (Queued, Cancelled) => l.(queuedCancels := l.queuedCancels + 1)
    case (Running, Succeeded) => l.(successes := l.successes + 1)
    case (Running, Failed) => l.(failures := l.failures + 1)
    case (Running, Cancelling) => l.(cancelRequests := l.cancelRequests + 1)
    case (Cancelling, Cancelled) => l.(cancels := l.cancels + 1)
    case (Failed, Queued) => l.(retries := l.retries + 1)
    case _ => l
  }

  /** Every edge of the diagram keeps the books. */
  lemma EdgeKeepsBooks(l: Ledger, a: RunState, b: RunState)
    requires Books(l, a) && (a == b || Edge(a, b))
    ensures Books(Enter(l, a, b), b)
  {
  }

  /** What a step adds to the ledger. */
  lemma LedgerGrows(tr: Trace, run: RunId, p: nat)
    requires p + 1 < |tr.states|
    ensures LedgerAt(tr, run, p + 1) ==
              if run in tr.states[p].rows && run in tr.states[p + 1].rows
              then Enter(LedgerAt(tr, run, p), tr.states[p].rows[run].state, tr.states[p + 1].rows[run].state)
              else LedgerAt(tr, run, p)
  {
    var before := LedgerAt(tr, run, p);
    assert LedgerAt(tr, run, p + 1) == Ledger(
      before.claims + One(Crossed(tr, p, run, Queued, Running)),
      before.queuedCancels + One(Crossed(tr, p, run, Queued, Cancelled)),
      before.successes + One(Crossed(tr, p, run, Running, Succeeded)),
      before.failures + One(Crossed(tr, p, run, Running, Failed)),
      before.cancelRequests + One(Crossed(tr, p, run, Running, Cancelling)),
      before.cancels + One(Crossed(tr, p, run, Cancelling, Cancelled)),
      before.retries + One(Crossed(tr, p, run, Failed, Queued)));
  }

  /** Everything that enters a state of `run` has left it or is still there; a run without a row has done nothing. */
  ghost predicate Balanced(tr: Trace, run: RunId, n: nat)
    requires n < |tr.states|
  {
    if run in tr.states[n].rows then Books(LedgerAt(tr, run, n), tr.states[n].rows[run].state)
    else LedgerAt(tr, run, n) == Ledger(0, 0, 0, 0, 0, 0, 0)
  }

  lemma StepKeepsBalance(tr: Trace, run: RunId, p: nat)
    requires p + 1 < |tr.states| && Balanced(tr, run, p)
    requires run in tr.states[p].rows ==>
               && run in tr.states[p + 1].rows
               && var a, b := tr.states[p].rows[run].state, tr.states[p + 1].rows[run].state; a == b || Edge(a, b)
    requires run !in tr.states[p].rows && run in tr.states[p + 1].rows ==> tr.states[p + 1].rows[run].state == Queued
    ensures Balanced(tr, run, p + 1)
  {
    LedgerGrows(tr, run, p);
    if run in tr.states[p].rows {
      EdgeKeepsBooks(LedgerAt(tr, run, p), tr.states[p].rows[run].state, tr.states[p + 1].rows[run].state);
    }
  }

  /**
    Conservation, for every run in every state of every trace: each of the six states was entered as often as it
    was left, once more if the run is there now.
   */
  lemma {:induction false} Conservation(tr: Trace, run: RunId, n: nat)
    requires tr.Valid() && n < |tr.states|
    ensures Balanced(tr, run, n)
  {
    if n > 0 {
      Conservation(tr, run, n - 1);
      if run in tr.states[n - 1].rows {
        RowAt(tr, n - 1, run);
      } else if run in tr.states[n].rows {
        Reachable(tr, n - 1);
        NewRows(tr.states[n - 1], tr.labels[n - 1], tr.states[n], run);
      }
      StepKeepsBalance(tr, run, n - 1);
    }
  }

  /** A run succeeds at most once, and then it was never cancelled. */
  lemma SucceedsAtMostOnce(tr: Trace, run: RunId, n: nat)
    requires tr.Valid() && n < |tr.states|
    ensures Count(tr, run, Running, Succeeded, n) <= 1
    ensures Count(tr, run, Running, Succeeded, n) == 1 ==>
              && Count(tr, run, Queued, Cancelled, n) == 0 && Count(tr, run, Running, Cancelling, n) == 0
              && Count(tr, run, Queued, Running, n) == 1 + Retries(tr, run, n)
  {
    Conservation(tr, run, n);
  }

  /** A run whose cancel was accepted at step `i` never ends SUCCEEDED or FAILED. */
  lemma AcceptedCancelIsFinal(tr: Trace, i: nat, n: nat, run: RunId)
    requires tr.Valid() && i < n < |tr.states|
    requires Crossed(tr, i, run, Running, Cancelling) || Crossed(tr, i, run, Queued, Cancelled)
    ensures run in tr.states[n].rows && tr.states[n].rows[run].state in {Cancelling, Cancelled}
  {
    CancelIsOneWay(tr, i + 1, n, run);
  }

  // ---------------------------------------------------------------- attempts

  /** A retry writes the attempt its ticket remembered. */
  lemma RetryCause(s: State, l: Label, s': State, run: RunId)
    requires BatchesSound(s) && Step(s, l, s') && run in s.rows && run in s'.rows
    requires s.rows[run].state == Failed && s'.rows[run].state == Queued
    ensures l.RetryWrite? && l.req in s.retrying && s.retrying[l.req].run == run
    ensures s'.rows[run].attempt == s.retrying[l.req].attempt
  {
    SoundBatchesStageClaims(s);
    if !l.BatchCommit? && Target(s, l) != Some(run) { OnlyTarget(s, l, s', run); }
  }

  lemma TicketStep(s: State, l: Label, s': State, q: Req)
    requires TicketsSound(s) && Step(s, l, s')
    ensures s.requests <= s'.requests
    ensures l.RetryRead? ==> l.req in s'.requests && l.req !in s.retrying && l.req in s'.retrying && l.run in s.rows
    ensures q in s.requests && q !in s.retrying ==> q !in s'.retrying
    ensures q in s.retrying && q in s'.retrying ==> s'.retrying[q] == s.retrying[q]
    ensures q !in s.retrying && q in s'.retrying ==>
              && l == RetryRead(q, s'.retrying[q].run) && s'.rows == s.rows && s'.retrying[q].run in s.rows
              && s.rows[s'.retrying[q].run].state == Failed
              && s'.retrying[q].attempt == s.rows[s'.retrying[q].run].attempt + 1
  {
  }

  /** The read behind a pending retry. */
  lemma {:induction false} RetryReadBefore(tr: Trace, n: nat, q: Req) returns (i: nat)
    requires tr.Valid() && n < |tr.states| && q in tr.states[n].retrying
    ensures i < n && tr.labels[i] == RetryRead(q, tr.states[n].retrying[q].run)
    ensures tr.states[n].retrying[q].run in tr.states[i].rows
    ensures tr.states[n].retrying[q].attempt == tr.states[i].rows[tr.states[n].retrying[q].run].attempt + 1
  {
    Reachable(tr, n - 1);
    TicketStep(tr.states[n - 1], tr.labels[n - 1], tr.states[n], q);
    if q in tr.states[n - 1].retrying {
      i := RetryReadBefore(tr, n - 1, q);
    } else {
      i := n - 1;
    }
  }

  /** Request identities are used once, so the read behind a ticket is unique. */
  lemma {:induction false} TicketOf(tr: Trace, i: nat, k: nat, q: Req, run: RunId)
    requires tr.Valid() && i < k < |tr.states| && tr.labels[i] == RetryRead(q, run)
    ensures q in tr.states[k].requests && run in tr.states[i].rows
    ensures q in tr.states[k].retrying ==>
              tr.states[k].retrying[q] == RetryTicket(run, tr.states[i].rows[run].attempt + 1)
  {
    if i + 1 == k {
      Reachable(tr, i);
      TicketStep(tr.states[i], tr.labels[i], tr.states[k], q);
    } else {
      TicketOf(tr, i, k - 1, q, run);
      Reachable(tr, k - 1);
      TicketStep(tr.states[k - 1], tr.labels[k - 1], tr.states[k], q);
    }
  }

  lemma {:induction false} CountGrows(tr: Trace, run: RunId, a: RunState, b: RunState, i: nat, n: nat)
    requires i <= n
    ensures Count(tr, run, a, b, i) <= Count(tr, run, a, b, n)
    ensures (forall j | i <= j < n :: !Crossed(tr, j, run, a, b)) ==> Count(tr, run, a, b, n) == Count(tr, run, a, b, i)
    ensures (exists j | i <= j < n :: Crossed(tr, j, run, a, b)) ==> Count(tr, run, a, b, n) > Count(tr, run, a, b, i)
  {
    if i < n { CountGrows(tr, run, a, b, i, n - 1); }
  }

  /** However reads and writes of concurrent retries interleave, the attempt number never overtakes the retries. */
  lemma {:induction false} AttemptBound(tr: Trace, run: RunId, n: nat)
    requires tr.Valid() && n < |tr.states| && run in tr.states[n].rows
    ensures 1 <= tr.states[n].rows[run].attempt <= 1 + Retries(tr, run, n)
  {
    Reachable(tr, n);
    assert Shaped(tr.states[n].rows[run]);
    if n > 0 {
      var p := n - 1;
      Reachable(tr, p);
      if run !in tr.states[p].rows {
        NewRows(tr.states[p], tr.labels[p], tr.states[n], run);
      } else {
        AttemptBound(tr, run, p);
        RowAt(tr, p, run);
        if Crossed(tr, p, run, Failed, Queued) {
          RetryCause(tr.states[p], tr.labels[p], tr.states[n], run);
          var i := RetryReadBefore(tr, p, tr.labels[p].req);
          AttemptBound(tr, run, i);
          CountGrows(tr, run, Failed, Queued, i, p);
        }
      }
    }
  }

  /** Step `k` is the effective write of the retry whose read is step `i`. */
  ghost predicate RetrySpan(tr: Trace, i: nat, k: nat, run: RunId) {
    && i < k < |tr.labels| && tr.labels[k].RetryWrite? && tr.labels[i] == RetryRead(tr.labels[k].req, run)
    && Crossed(tr, k, run, Failed, Queued)
  }

  /** No retry of `run` before step `n` has another one between its read and its write. */
  ghost predicate RetriesApart(tr: Trace, run: RunId, n: nat) {
    forall i: nat, j: nat, k: nat | RetrySpan(tr, i, k, run) && k < n && i < j < k ::
      !Crossed(tr, j, run, Failed, Queued)
  }

  ghost predicate AttemptsCount(tr: Trace, run: RunId, n: nat)
    requires n < |tr.states|
  {
    forall m: nat | m <= n && run in tr.states[m].rows :: tr.states[m].rows[run].attempt == 1 + Retries(tr, run, m)
  }

  /** Every effective retry has its span, and writes one more than what it read. */
  lemma SpanOf(tr: Trace, run: RunId, k: nat) returns (i: nat)
    requires tr.Valid() && Crossed(tr, k, run, Failed, Queued)
    ensures RetrySpan(tr, i, k, run) && run in tr.states[i].rows
    ensures tr.states[k + 1].rows[run].attempt == tr.states[i].rows[run].attempt + 1
  {
    Reachable(tr, k);
    RetryCause(tr.states[k], tr.labels[k], tr.states[k + 1], run);
    i := RetryReadBefore(tr, k, tr.labels[k].req);
  }

  lemma RetryReadsOnly(s: State, l: Label, s': State)
    requires l.RetryRead? && Step(s, l, s')
    ensures s'.rows == s.rows
  {
  }

  lemma LoneRetryCounts(tr: Trace, run: RunId, k: nat)
    requires tr.Valid() && Crossed(tr, k, run, Failed, Queued)
    requires AttemptsCount(tr, run, k) && RetriesApart(tr, run, k + 1)
    ensures tr.states[k + 1].rows[run].attempt == 2 + Retries(tr, run, k)
  {
    var i := SpanOf(tr, run, k);
    CountGrows(tr, run, Failed, Queued, i + 1, k);
    RetryReadsOnly(tr.states[i], tr.labels[i], tr.states[i + 1]);
  }

  lemma {:induction false} ApartMeansCounted(tr: Trace, run: RunId, n: nat)
    requires tr.Valid() && n < |tr.states| && RetriesApart(tr, run, n)
    ensures AttemptsCount(tr, run, n)
  {
    if n > 0 {
      var p := n - 1;
      ApartMeansCounted(tr, run, p);
      if run in tr.states[p].rows {
        RowAt(tr, p, run);
        if Crossed(tr, p, run, Failed, Queued) { LoneRetryCounts(tr, run, p); }
      } else if run in tr.states[n].rows {
        Reachable(tr, p);
        NewRows(tr.states[p], tr.labels[p], tr.states[n], run);
        AbsentMeansUncounted(tr, run, p);
      }
    }
  }

  lemma {:induction false} AbsentMeansUncounted(tr: Trace, run: RunId, n: nat)
    requires tr.Valid() && n < |tr.states| && run !in tr.states[n].rows
    ensures Retries(tr, run, n) == 0
  {
    if n > 0 {
      Grows(tr, n - 1, n);
      AbsentMeansUncounted(tr, run, n - 1);
    }
  }

  /** A retry written over another one loses an attempt number. */
  lemma OverlapLosesAttempt(tr: Trace, run: RunId, i: nat, j: nat, k: nat)
    requires tr.Valid() && RetrySpan(tr, i, k, run) && i < j < k && Crossed(tr, j, run, Failed, Queued)
    ensures tr.states[k + 1].rows[run].attempt < 1 + Retries(tr, run, k + 1)
  {
    Reachable(tr, k);
    RetryCause(tr.states[k], tr.labels[k], tr.states[k + 1], run);
    TicketOf(tr, i, k, tr.labels[k].req, run);
    AttemptBound(tr, run, i);
    CountGrows(tr, run, Failed, Queued, i, k);
  }

  /** The attempt number counts the retries exactly when no retry overlaps another one of the same run. */
  lemma AttemptCountsRetriesIff(tr: Trace, run: RunId, n: nat)
    requires tr.Valid() && n < |tr.states|
    ensures AttemptsCount(tr, run, n) <==> RetriesApart(tr, run, n)
  {
    if RetriesApart(tr, run, n) {
      ApartMeansCounted(tr, run, n);
    } else {
      var i: nat, j: nat, k: nat :|
        RetrySpan(tr, i, k, run) && k < n && i < j < k && Crossed(tr, j, run, Failed, Queued);
      OverlapLosesAttempt(tr, run, i, j, k);
      assert run in tr.states[k + 1].rows;
    }
  }
}
