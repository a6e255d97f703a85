/** Concrete histories of the run protocol: races and surprises that the theorems delimit do occur. */
module RunExamples {
  import opened Options
  import opened RunTable
  import opened RunProtocol
  import opened RunTheorems
  import opened RunAccounting
  import PollLoop
  import PollFeed
  import Selection

  // ---------------------------------------------------------------- two retries that overlap

  ghost predicate Ends(tr: Trace, run: RunId, s: State, retries: nat) {
    tr.Valid() && tr.Now() == s && Retries(tr, run, |tr.labels|) == retries
  }

  lemma Extend(tr: Trace, run: RunId, s: State, retries: nat, l: Label, s': State) returns (more: Trace)
    requires Ends(tr, run, s, retries) && Step(s, l, s')
    ensures |more.labels| == |tr.labels| + 1 && tr.states <= more.states && tr.labels <= more.labels
    ensures more.labels[|tr.labels|] == l
    ensures Ends(more, run, s', retries + One(run in s.rows && s.rows[run].state == Failed && IsQueued(s'.rows, run)))
  {
    more := tr.Then(l);
    ThenIsValid(tr, l);
    SamePrefix(tr, more, run, |tr.labels|);
  }

  lemma {:induction false} SamePrefix(tr: Trace, more: Trace, run: RunId, n: nat)
    requires n <= |tr.labels| && |tr.states| == |tr.labels| + 1
    requires |tr.states| <= |more.states| && tr.states == more.states[..|tr.states|]
    requires |tr.labels| <= |more.labels| && tr.labels == more.labels[..|tr.labels|]
    ensures Retries(more, run, n) == Retries(tr, run, n)
  {
    if n > 0 {
      SamePrefix(tr, more, run, n - 1);
      assert tr.states[n] == more.states[n] && tr.states[n - 1] == more.states[n - 1];
    }
  }

  lemma CreateFirst(run: RunId, job: Job) returns (tr: Trace, s: State)
    ensures Ends(tr, run, s, 0) && |tr.labels| == 1
    ensures IsQueued(s.rows, run) && s.rows[run].attempt == 1
    ensures s.rows.Keys == {run} && s.batches == map[] && s.minted == {} && s.requests == {} && s.retrying == map[]
  {
    s := Apply(INITIAL, Create(run, job, 0));
    tr := Extend(NOTHING, run, INITIAL, 0, Create(run, job, 0), s);
  }

  /** A claim and a failure of that claim. */
  lemma ClaimAndFail(tr: Trace, run: RunId, s: State, retries: nat, token: Token) returns (more: Trace, s': State)
    requires Ends(tr, run, s, retries) && IsQueued(s.rows, run) && s.batches == map[] && token !in s.minted
    ensures Ends(more, run, s', retries) && |more.labels| == |tr.labels| + 2
    ensures run in s'.rows && s'.rows[run].state == Failed && s'.rows[run].attempt == s.rows[run].attempt
    ensures s'.batches == map[] && s'.minted == s.minted + {token}
    ensures s'.requests == s.requests && s'.retrying == s.retrying
  {
    var running := Apply(s, ClaimOne(run, token, 0));
    more := Extend(tr, run, s, retries, ClaimOne(run, token, 0), running);
    s' := Apply(running, Fail(Claim(run, token), None, 0));
    more := Extend(more, run, running, retries, Fail(Claim(run, token), None, 0), s');
  }

  lemma ReadRetry(tr: Trace, run: RunId, s: State, retries: nat, req: Req) returns (more: Trace, s': State)
    requires Ends(tr, run, s, retries) && run in s.rows && s.rows[run].state == Failed && req !in s.requests
    ensures Ends(more, run, s', retries) && |more.labels| == |tr.labels| + 1
    ensures tr.states <= more.states && tr.labels <= more.labels
    ensures s'.rows == s.rows && s'.batches == s.batches && s'.minted == s.minted && s'.requests == s.requests + {req}
    ensures s'.retrying == s.retrying[req := RetryTicket(run, s.rows[run].attempt + 1)]
  {
    s' := Apply(s, RetryRead(req, run));
    more := Extend(tr, run, s, retries, RetryRead(req, run), s');
  }

  lemma WriteRetry(tr: Trace, run: RunId, s: State, retries: nat, req: Req, token: Token)
    returns (more: Trace, s': State)
    requires Ends(tr, run, s, retries) && run in s.rows && s.rows[run].state == Failed && s.batches == map[]
    requires token !in s.minted && req in s.retrying && s.retrying[req].run == run
    ensures Ends(more, run, s', retries + 1) && |more.labels| == |tr.labels| + 1
    ensures tr.states <= more.states && tr.labels <= more.labels
    ensures s'.rows.Keys == s.rows.Keys && IsQueued(s'.rows, run) && s'.rows[run].attempt == s.retrying[req].attempt
    ensures s'.batches == map[] && s'.minted == s.minted + {token} && s'.retrying == s.retrying - {req}
  {
    s' := Apply(s, RetryWrite(req, token));
    more := Extend(tr, run, s, retries, RetryWrite(req, token), s');
  }

  /** Two retries that both read attempt 1 leave attempt 2 after two retries. */
  lemma OverlappingRetriesExample(run: RunId, job: Job) returns (tr: Trace)
    ensures tr.Valid() && |tr.labels| == 9 && run in tr.states[9].rows
    ensures tr.states[9].rows[run].attempt == 2 && Retries(tr, run, 9) == 2
  {
    var s;
    tr, s := CreateFirst(run, job);
    tr, s := ClaimAndFail(tr, run, s, 0, 1);
    tr, s := ReadRetry(tr, run, s, 0, 0);
    tr, s := ReadRetry(tr, run, s, 0, 1);
    tr, s := WriteRetry(tr, run, s, 0, 0, 2);
    tr, s := ClaimAndFail(tr, run, s, 1, 3);
    tr, s := WriteRetry(tr, run, s, 1, 1, 4);
  }

  // ---------------------------------------------------------------- a heartbeat does not keep the sweeper away

  /** A claim at 0 and a heartbeat of it at `beat`. */
  lemma ClaimAndBeat(tr: Trace, run: RunId, s: State, token: Token, beat: Time) returns (more: Trace, s': State)
    requires Ends(tr, run, s, 0) && IsQueued(s.rows, run) && s.rows.Keys == {run}
    requires s.batches == map[] && token !in s.minted
    ensures Ends(more, run, s', 0) && |more.labels| == |tr.labels| + 2
    ensures s'.rows.Keys == {run} && RunningUnder(s'.rows, run, token) && s'.batches == map[]
    ensures s'.rows[run].startedAt == Some(0) && s'.rows[run].heartbeatAt == Some(beat)
    ensures Claim(run, token) in s'.handed && s'.requests == s.requests
  {
    var running := Apply(s, ClaimOne(run, token, 0));
    more := Extend(tr, run, s, 0, ClaimOne(run, token, 0), running);
    s' := Apply(running, Heartbeat(Claim(run, token), beat));
    more := Extend(more, run, running, 0, Heartbeat(Claim(run, token), beat), s');
  }

  lemma CanListOne(s: State, run: RunId, cutoff: Time)
    requires s.rows.Keys == {run} && s.rows[run].state == Running && s.rows[run].startedAt == Some(0) && 0 < cutoff
    ensures Enabled(s, ListRunning(cutoff, 1, [run]))
  {
    Selection.OldestOfOne(StaleKeys(s.rows, Running, cutoff), 1, run);
  }

  /** The sweeper's query finds the run. */
  lemma ListOne(tr: Trace, run: RunId, s: State, token: Token, cutoff: Time) returns (more: Trace, s': State)
    requires Ends(tr, run, s, 0) && s.rows.Keys == {run} && RunningUnder(s.rows, run, token) && s.batches == map[]
    requires s.rows[run].startedAt == Some(0) && 0 < cutoff
    ensures Ends(more, run, s', 0) && |more.labels| == |tr.labels| + 1
    ensures tr.states <= more.states && tr.labels <= more.labels
    ensures more.labels[|tr.labels|] == ListRunning(cutoff, 1, [run])
    ensures s'.rows == s.rows && s'.batches == map[] && Listed(run, Some(token)) in s'.listedRunning
    ensures s'.minted == s.minted && s'.requests == s.requests && s'.retrying == s.retrying
  {
    var list := ListRunning(cutoff, 1, [run]);
    CanListOne(s, run, cutoff);
    s' := Apply(s, list);
    assert run in list.listed;
    more := Extend(tr, run, s, 0, list, s');
  }

  /** The sweeper's mark fails it. */
  lemma SweepOne(tr: Trace, run: RunId, s: State, token: Token) returns (more: Trace, s': State)
    requires Ends(tr, run, s, 0) && RunningUnder(s.rows, run, token) && s.batches == map[]
    requires Listed(run, Some(token)) in s.listedRunning
    ensures Ends(more, run, s', 0) && |more.labels| == |tr.labels| + 1
    ensures tr.states <= more.states && tr.labels <= more.labels
    ensures s'.rows.Keys == s.rows.Keys && run in s'.rows && s'.rows[run].state == Failed && s'.batches == map[]
    ensures s'.minted == s.minted && s'.requests == s.requests && s'.retrying == s.retrying
  {
    var sweep := SweepRunning(Listed(run, Some(token)), None, 0);
    s' := Apply(s, sweep);
    more := Extend(tr, run, s, 0, sweep, s');
  }

  /** A run heartbeated at or after the cutoff is listed and failed all the same, because it started before it. */
  lemma BeatenRunIsSweptExample(run: RunId, job: Job, cutoff: Time, beat: Time) returns (tr: Trace)
    requires 0 < cutoff <= beat
    ensures tr.Valid() && |tr.labels| == 5 && tr.labels[3] == ListRunning(cutoff, 1, [run])
    ensures forall m | 3 <= m <= 4 :: run in tr.states[m].rows && tr.states[m].rows[run].state == Running
                                      && tr.states[m].rows[run].heartbeatAt == Some(beat)
    ensures run in tr.states[5].rows && tr.states[5].rows[run].state == Failed
  {
    var s;
    tr, s := CreateFirst(run, job);
    tr, s := ClaimAndBeat(tr, run, s, 1, beat);
    tr, s := ListOne(tr, run, s, 1, cutoff);
    tr, s := SweepOne(tr, run, s, 1);
  }

  lemma RequestCancelOne(tr: Trace, run: RunId, s: State, token: Token) returns (more: Trace, s': State)
    requires Ends(tr, run, s, 0) && s.rows.Keys == {run} && RunningUnder(s.rows, run, token)
    requires s.batches == map[] && s.requests == {}
    ensures Ends(more, run, s', 0) && |more.labels| == |tr.labels| + 2
    ensures s'.rows == s.rows[run := s.rows[run].(state := Cancelling)] && s'.batches == map[] && s'.handed == s.handed
  {
    var asked := Apply(s, CancelRead(0, run));
    more := Extend(tr, run, s, 0, CancelRead(0, run), asked);
    s' := Apply(asked, CancelWrite(0, None, 0));
    more := Extend(more, run, asked, 0, CancelWrite(0, None, 0), s');
  }

  lemma BeatOne(tr: Trace, run: RunId, s: State, token: Token, beat: Time) returns (more: Trace, s': State)
    requires Ends(tr, run, s, 0) && IsAlive(s.rows, run, token) && s.batches == map[] && Claim(run, token) in s.handed
    ensures Ends(more, run, s', 0) && |more.labels| == |tr.labels| + 1
    ensures s'.rows == s.rows[run := s.rows[run].(heartbeatAt := Some(beat))]
    ensures s'.batches == map[] && s'.handed == s.handed
  {
    s' := Apply(s, Heartbeat(Claim(run, token), beat));
    more := Extend(tr, run, s, 0, Heartbeat(Claim(run, token), beat), s');
  }

  lemma ListCancel(tr: Trace, run: RunId, s: State, cutoff: Time) returns (more: Trace, s': State)
    requires Ends(tr, run, s, 0) && s.rows.Keys == {run} && s.rows[run].state == Cancelling && s.batches == map[]
    requires s.rows[run].startedAt == Some(0) && 0 < cutoff
    ensures Ends(more, run, s', 0) && |more.labels| == |tr.labels| + 1
    ensures tr.states <= more.states && more.labels[|tr.labels|] == ListCancelling(cutoff, 1, [run])
    ensures s'.rows == s.rows && s'.batches == map[] && run in s'.listedCancelling
  {
    var list := ListCancelling(cutoff, 1, [run]);
    Selection.OldestOfOne(StaleKeys(s.rows, Cancelling, cutoff), 1, run);
    s' := Apply(s, list);
    assert run in list.listed;
    more := Extend(tr, run, s, 0, list, s');
  }

  lemma CancelOne(tr: Trace, run: RunId, s: State) returns (more: Trace, s': State)
    requires Ends(tr, run, s, 0) && run in s.rows && s.rows[run].state == Cancelling && s.batches == map[]
    requires run in s.listedCancelling
    ensures Ends(more, run, s', 0) && |more.labels| == |tr.labels| + 1
    ensures tr.states <= more.states && tr.labels <= more.labels
    ensures run in s'.rows && s'.rows[run].state == Cancelled
  {
    s' := Apply(s, SweepCancelling(run, None, 0));
    more := Extend(tr, run, s, 0, SweepCancelling(run, None, 0), s');
  }

  /** The same for a run that is being cancelled: a heartbeat after the cutoff does not keep it from being closed. */
  lemma BeatenCancelIsSweptExample(run: RunId, job: Job, cutoff: Time, beat: Time) returns (tr: Trace)
    requires 0 < cutoff <= beat
    ensures tr.Valid() && |tr.labels| == 8 && tr.labels[6] == ListCancelling(cutoff, 1, [run])
    ensures run in tr.states[6].rows && tr.states[6].rows[run].state == Cancelling
    ensures tr.states[6].rows[run].heartbeatAt == Some(beat)
    ensures run in tr.states[8].rows && tr.states[8].rows[run].state == Cancelled
  {
    var s;
    tr, s := CreateFirst(run, job);
    tr, s := ClaimAndBeat(tr, run, s, 1, 0);
    tr, s := RequestCancelOne(tr, run, s, 1);
    tr, s := BeatOne(tr, run, s, 1, beat);
    tr, s := ListCancel(tr, run, s, cutoff);
    tr, s := CancelOne(tr, run, s);
  }

  // ---------------------------------------------------------------- a worker that is fed a run it still executes

  lemma CanSelectOne(s: State, run: RunId, tx: TxId, limit: nat)
    requires s.rows.Keys == {run} && IsQueued(s.rows, run) && s.batches == map[] && limit > 0
    ensures Enabled(s, BatchSelect(tx, limit, [run], 0)) && Members([run]) == {run}
  {
    Selection.OldestOfOne(QueuedKeys(s), limit, run);
  }

  lemma SelectOne(tr: Trace, run: RunId, s: State, retries: nat, tx: TxId, limit: nat) returns (more: Trace, s': State)
    requires Ends(tr, run, s, retries) && s.rows.Keys == {run} && IsQueued(s.rows, run)
    requires s.batches == map[] && limit > 0
    ensures Ends(more, run, s', retries) && |more.labels| == |tr.labels| + 1
    ensures tr.states <= more.states && tr.labels <= more.labels
    ensures s'.rows == s.rows && s'.minted == s.minted && s'.requests == s.requests && s'.retrying == s.retrying
    ensures s'.batches == map[tx := Batch({run}, limit, 0, map[], map[])]
  {
    CanSelectOne(s, run, tx, limit);
    s' := Apply(s, BatchSelect(tx, limit, [run], 0));
    more := Extend(tr, run, s, retries, BatchSelect(tx, limit, [run], 0), s');
  }

  lemma UpdateOne(tr: Trace, run: RunId, s: State, retries: nat, tx: TxId, limit: nat, token: Token)
    returns (more: Trace, s': State)
    requires Ends(tr, run, s, retries) && IsQueued(s.rows, run) && token !in s.minted
    requires s.batches == map[tx := Batch({run}, limit, 0, map[], map[])]
    ensures Ends(more, run, s', retries) && |more.labels| == |tr.labels| + 1
    ensures tr.states <= more.states && tr.labels <= more.labels
    ensures s'.rows == s.rows && s'.minted == s.minted + {token}
    ensures s'.requests == s.requests && s'.retrying == s.retrying
    ensures s'.batches ==
              map[tx := Batch({run}, limit, 0, map[run := token], map[run := ClaimedRow(s.rows[run], token, 0)])]
  {
    s' := Apply(s, BatchUpdate(tx, run, token));
    more := Extend(tr, run, s, retries, BatchUpdate(tx, run, token), s');
  }

  /** A claim transaction over one row, from SELECT to COMMIT. */
  lemma BatchOfOne(tr: Trace, run: RunId, s: State, retries: nat, tx: TxId, limit: nat, token: Token)
    returns (more: Trace, s': State)
    requires Ends(tr, run, s, retries) && s.rows.Keys == {run} && IsQueued(s.rows, run)
    requires s.batches == map[] && limit > 0 && token !in s.minted
    ensures Ends(more, run, s', retries) && |more.labels| == |tr.labels| + 3
    ensures tr.states <= more.states && tr.labels <= more.labels
    ensures s'.rows == map[run := ClaimedRow(s.rows[run], token, 0)] && s'.batches == map[]
    ensures s'.minted == s.minted + {token} && s'.requests == s.requests && s'.retrying == s.retrying
    ensures PollFeed.Poll(tx, |tr.labels| + 2).Answers(more, limit, [Claim(run, token)])
  {
    var mid;
    more, mid := SelectOne(tr, run, s, retries, tx, limit);
    more, mid := UpdateOne(more, run, mid, retries, tx, limit, token);
    s' := Apply(mid, BatchCommit(tx));
    ghost var b := mid.batches[tx];
    assert forall c :: c in b.Reported() <==> c == Claim(run, token);
    assert more.states[|more.labels|] == mid;
    more := Extend(more, run, mid, retries, BatchCommit(tx), s');
  }

  lemma AnswersLater(p: PollFeed.Poll, tr: Trace, more: Trace, limit: nat, claimed: seq<Claim>)
    requires p.Answers(tr, limit, claimed) && tr.states <= more.states && tr.labels <= more.labels
    requires |more.labels| < |more.states|
    ensures p.Answers(more, limit, claimed)
  {
    assert more.states[p.commit] == tr.states[p.commit] && more.labels[p.commit] == tr.labels[p.commit];
  }

  /** The sweeper fails the run, and an operator retries it. */
  lemma SweepAndRetry(tr: Trace, run: RunId, s: State, token: Token, drawn: Token) returns (more: Trace, s': State)
    requires Ends(tr, run, s, 0) && s.rows.Keys == {run} && RunningUnder(s.rows, run, token)
    requires s.rows[run].startedAt == Some(0) && s.batches == map[] && s.requests == {} && drawn !in s.minted
    ensures Ends(more, run, s', 1) && |more.labels| == |tr.labels| + 4
    ensures tr.states <= more.states && tr.labels <= more.labels
    ensures s'.rows.Keys == {run} && IsQueued(s'.rows, run) && s'.batches == map[] && s'.minted == s.minted + {drawn}
  {
    more, s' := ListOne(tr, run, s, token, 1);
    more, s' := SweepOne(more, run, s', token);
    more, s' := ReadRetry(more, run, s', 0, 0);
    more, s' := WriteRetry(more, run, s', 0, 0, drawn);
  }

  /** A run is claimed, swept while its execution lives on, retried and claimed again by the same worker. */
  lemma ReclaimHistory(run: RunId, job: Job) returns (tr: Trace)
    ensures tr.Valid() && |tr.labels| == 11
    ensures PollFeed.Poll(0, 3).Answers(tr, 2, [Claim(run, 1)]) && PollFeed.Poll(1, 10).Answers(tr, 1, [Claim(run, 3)])
  {
    var s;
    tr, s := CreateFirst(run, job);
    tr, s := BatchOfOne(tr, run, s, 0, 0, 2, 1);
    ghost var first := tr;
    tr, s := SweepAndRetry(tr, run, s, 1, 2);
    tr, s := BatchOfOne(tr, run, s, 1, 1, 1, 3);
    AnswersLater(PollFeed.Poll(0, 3), first, tr, 2, [Claim(run, 1)]);
  }

  /** So the database can feed a worker a run it still executes, and one execution loses its heartbeat. */
  lemma FedReclaimExample(run: RunId, job: Job)
    returns (tr: Trace, states: seq<PollLoop.Loop>, events: seq<PollLoop.Event>, polls: seq<PollFeed.Poll>)
    ensures tr.Valid() && PollFeed.Polls(states, events, 2) && PollFeed.Fed(tr, states, events, polls)
    ensures |states| == 5 && !PollLoop.ActiveIsOwned(states[4])
  {
    tr := ReclaimHistory(run, job);
    states, events := PollLoop.ReclaimExample(run, 1, 3);
    polls := [PollFeed.Poll(0, 0), PollFeed.Poll(0, 3), PollFeed.Poll(0, 0), PollFeed.Poll(1, 10)];
    forall i {:trigger events[i]} | 0 <= i < 4 && PollFeed.Brings(events[i])
      ensures i == 1 || i == 3
      ensures polls[i].Answers(tr, states[i].reserved.value, events[i].claimed)
    {
    }
  }
}
