/**
  The poll loop against the database: whatever `claimNextQueued` answers in a history of the run protocol is
  an answer the loop's theorems ask for.
 */
module PollFeed {
  import opened RunTable
  import opened RunProtocol
  import opened RunInvariant
  import opened RunTheorems
  import opened PollLoop
  import Selection

  /** Step `commit` ends the claim transaction `tx`. */
  datatype Poll = Poll(tx: TxId, commit: nat) {
    /** It asked for `limit` rows and reports `claimed`, in some order. */
    ghost predicate Answers(tr: Trace, limit: nat, claimed: seq<Claim>) {
      && commit < |tr.labels| < |tr.states| && tr.labels[commit] == BatchCommit(tx)
      && tx in tr.states[commit].batches && tr.states[commit].batches[tx].limit == limit
      && Selection.Distinct(claimed)
      && (forall c :: c in claimed <==> c in tr.states[commit].batches[tx].Reported())
    }
  }

  function RunsOf(claimed: seq<Claim>): seq<RunId> { seq(|claimed|, i requires 0 <= i < |claimed| => claimed[i].run) }

  /** A claim answers with at most `limit` pairs, of different runs. */
  lemma AnswerFits(b: Batch, s: State, claimed: seq<Claim>)
    requires BatchSound(s, b) && Selection.Distinct(claimed) && forall c | c in claimed :: c in b.Reported()
    ensures |claimed| <= b.limit && forall i, j | 0 <= i < j < |claimed| :: claimed[i].run != claimed[j].run
  {
    forall i | 0 <= i < |claimed| ensures claimed[i].run in b.claimed && claimed[i].token == b.claimed[claimed[i].run] {
      assert claimed[i] in claimed;
    }
    var runs := RunsOf(claimed);
    assert Selection.Distinct(runs);
    Selection.DistinctSize(runs, b.locked);
  }

  /** The pair was claimed before step `k`. */
  ghost predicate ClaimedBefore(tr: Trace, k: nat, c: Claim) {
    exists i: nat | i < k :: ClaimedAt(tr, i, c.run, c.token)
  }

  lemma ReportedIsClaimed(tr: Trace, p: Poll, limit: nat, claimed: seq<Claim>, c: Claim)
    requires tr.Valid() && p.Answers(tr, limit, claimed) && c in claimed
    ensures ClaimedAt(tr, p.commit, c.run, c.token)
  {
    var _ := BatchClaimIsSound(tr, p.commit, p.tx);
    assert c in tr.states[p.commit].batches[p.tx].Reported();
  }

  /** The answer is what the loop relies on; no pair is handed out twice, so none of it is executing already. */
  lemma CommitAnswers(tr: Trace, p: Poll, s: Loop, limit: nat, claimed: seq<Claim>)
    requires tr.Valid() && p.Answers(tr, limit, claimed)
    requires forall c | c in s.active :: ClaimedBefore(tr, p.commit, c)
    ensures PollLoop.Answers(s, limit, claimed)
  {
    Reachable(tr, p.commit);
    AnswerFits(tr.states[p.commit].batches[p.tx], tr.states[p.commit], claimed);
    forall c | c in claimed ensures c !in s.active {
      ReportedIsClaimed(tr, p, limit, claimed, c);
      if c in s.active {
        var i: nat :| i < p.commit && ClaimedAt(tr, i, c.run, c.token);
        TokensNeverReused(tr, i, p.commit, c.run, c.run, c.token, c.token);
      }
    }
  }

  // ---------------------------------------------------------------- whole runs of a worker

  /** What the loop itself makes sure of, without a word about what the claims answer. */
  ghost predicate Polls(states: seq<Loop>, events: seq<Event>, capacity: nat) {
    && |states| == |events| + 1 && states[0] == IDLE
    && forall i {:trigger events[i]} | 0 <= i < |events| ::
         && states[i + 1] == Do(states[i], events[i], capacity)
         && (events[i].BeginPoll? ==> states[i].reserved.None?)
         && (events[i].EndPoll? ==> states[i].reserved.Some?)
         && (events[i].Settle? ==> events[i].done in states[i].active)
  }

  /** Each poll that brought something is a claim transaction of the history, and they commit in the loop's order. */
  ghost predicate Fed(tr: Trace, states: seq<Loop>, events: seq<Event>, polls: seq<Poll>) {
    && |polls| == |events| < |states|
    && (forall i {:trigger events[i]} | 0 <= i < |events| && Brings(events[i]) && states[i].reserved.Some? ::
          polls[i].Answers(tr, states[i].reserved.value, events[i].claimed))
    && (forall i, j {:trigger events[i], events[j]} | 0 <= i < j < |events| && Brings(events[i]) && Brings(events[j]) ::
          polls[i].commit < polls[j].commit)
  }

  predicate Brings(e: Event) { e.EndPoll? && e.claimed != [] }

  /** Every execution comes from an earlier poll of this worker. */
  ghost predicate FromPolls(tr: Trace, s: Loop, events: seq<Event>, polls: seq<Poll>, n: nat)
    requires n <= |events| == |polls|
  {
    forall c | c in s.active ::
      exists d {:trigger events[d]} | 0 <= d < n :: Brings(events[d]) && ClaimedAt(tr, polls[d].commit, c.run, c.token)
  }

  lemma ActiveGrows(s: Loop, e: Event, capacity: nat)
    ensures forall c | c in Do(s, e, capacity).active :: c in s.active || (Brings(e) && c in e.claimed)
  {
    if e.EndPoll? { TrackActive(s, e.claimed); }
  }

  /** A worker fed by the database satisfies everything its own theorems assume of the claims. */
  lemma {:induction false} FedWorkerRuns(tr: Trace, states: seq<Loop>, events: seq<Event>, polls: seq<Poll>,
                                         capacity: nat, n: nat)
    requires tr.Valid() && Polls(states, events, capacity) && Fed(tr, states, events, polls) && n <= |events|
    ensures Runs(states[..n + 1], events[..n], capacity)
    ensures FromPolls(tr, states[n], events, polls, n)
  {
    if n > 0 {
      var p := n - 1;
      FedWorkerRuns(tr, states, events, polls, capacity, p);
      var s, e := states[p], events[p];
      if Brings(e) {
        EarlierClaims(tr, s, events, polls, p);
        CommitAnswers(tr, polls[p], s, s.reserved.value, e.claimed);
      }
      assert Can(s, e);
      forall i {:trigger events[..n][i]} | 0 <= i < n
        ensures Can(states[..n + 1][i], events[..n][i])
        ensures states[..n + 1][i + 1] == Do(states[..n + 1][i], events[..n][i], capacity)
      {
        if i < p { assert events[..p][i] == events[..n][i] && states[..n][i] == states[..n + 1][i]; }
      }
      ActiveGrows(s, e, capacity);
      forall c | c in states[n].active
        ensures exists d {:trigger events[d]} | 0 <= d < n ::
                  Brings(events[d]) && ClaimedAt(tr, polls[d].commit, c.run, c.token)
      {
        if c !in s.active {
          ReportedIsClaimed(tr, polls[p], s.reserved.value, e.claimed, c);
          assert Brings(events[p]);
        }
      }
    }
  }

  lemma EarlierClaims(tr: Trace, s: Loop, events: seq<Event>, polls: seq<Poll>, p: nat)
    requires |polls| == |events| && p < |events| && FromPolls(tr, s, events, polls, p) && Brings(events[p])
    requires forall i, j {:trigger events[i], events[j]} |
               0 <= i < j < |events| && Brings(events[i]) && Brings(events[j]) ::
               polls[i].commit < polls[j].commit
    ensures forall c | c in s.active :: ClaimedBefore(tr, polls[p].commit, c)
  {
    forall c | c in s.active ensures ClaimedBefore(tr, polls[p].commit, c) {
      var d :| 0 <= d < p && Brings(events[d]) && ClaimedAt(tr, polls[d].commit, c.run, c.token);
      assert polls[d].commit < polls[p].commit;
    }
  }

  /**
    Any worker polling any history of the protocol: it never executes more than its capacity, and whatever it
    heartbeats it executes under that token.
   */
  lemma FedWorkerAccounting(tr: Trace, states: seq<Loop>, events: seq<Event>, polls: seq<Poll>, capacity: nat, n: nat)
    requires tr.Valid() && Polls(states, events, capacity) && Fed(tr, states, events, polls) && n <= |events|
    ensures |states[n].active| <= capacity && OwnedIsActive(states[n])
  {
    FedWorkerRuns(tr, states, events, polls, capacity, n);
    WorkerAccounting(states[..n + 1], events[..n], capacity, n);
    assert states[..n + 1][n] == states[n];
  }
}
