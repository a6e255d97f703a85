/**
  The calls that send several statements, in every interleaving. The history `tr` is any run of the protocol in
  which this call's statements are steps; between two of them, any steps of other clients may have come.
 */
module RunCalls {
  import opened Options
  import opened RunTable
  import opened RunProtocol
  import opened RunInvariant
  import opened RunTheorems
  import PollFeed
  import Selection

  // ---------------------------------------------------------------- claiming a batch

  /** The step belongs to the claim transaction `tx`. */
  ghost predicate Touches(l: Label, tx: TxId) {
    (l.BatchSelect? || l.BatchUpdate? || l.BatchCommit? || l.BatchRollback?) && l.tx == tx
  }

  lemma OtherKeeps(s: State, l: Label, s': State, tx: TxId)
    requires Step(s, l, s') && tx in s.batches && !Touches(l, tx)
    ensures tx in s'.batches && s'.batches[tx] == s.batches[tx]
  {
  }

  /** Whatever the others do, an open transaction is as its own last statement left it. */
  lemma {:induction false} OthersKeep(tr: Trace, tx: TxId, i: nat, k: nat)
    requires tr.Valid() && i <= k < |tr.states| && tx in tr.states[i].batches
    requires forall j {:trigger tr.labels[j]} | i <= j < k :: !Touches(tr.labels[j], tx)
    ensures tx in tr.states[k].batches && tr.states[k].batches[tx] == tr.states[i].batches[tx]
  {
    if i < k {
      OthersKeep(tr, tx, i, k - 1);
      OtherKeeps(tr.states[k - 1], tr.labels[k - 1], tr.states[k], tx);
    }
  }

  /** One call of `claimNextQueued`: what it sends, and the steps at which its statements act. */
  datatype ClaimCall = ClaimCall(tx: TxId, limit: nat, candidates: seq<RunId>, tokens: seq<Token>, time: Time,
                                 at: seq<nat>)
  {
    ghost function Last(): nat
      requires at != []
    {
      at[|at| - 1]
    }

    /** Its SELECT, `updates` UPDATEs and its COMMIT or ROLLBACK are these steps of `tr`, and it sends nothing else. */
    ghost predicate In(tr: Trace, updates: nat, commits: bool) {
      && updates <= |candidates| == |tokens| && |at| == updates + 2 && (commits ==> updates == |candidates|)
      && (forall i, j | 0 <= i < j < |at| :: at[i] < at[j]) && Last() < |tr.labels|
      && tr.labels[at[0]] == BatchSelect(tx, limit, candidates, time)
      && (forall i | 0 <= i < updates :: tr.labels[at[i + 1]] == BatchUpdate(tx, candidates[i], tokens[i]))
      && tr.labels[Last()] == (if commits then BatchCommit(tx) else BatchRollback(tx))
      && (forall j {:trigger tr.labels[j]} | at[0] < j < Last() && j !in at :: !Touches(tr.labels[j], tx))
    }

    /** After `n` updates. */
    ghost predicate Midway(s: State, n: nat) {
      && n <= |candidates| == |tokens| && tx in s.batches
      && var b := s.batches[tx];
         && b.locked == Members(candidates) && b.limit == limit && b.claimed.Keys == Members(candidates[..n])
         && forall i | 0 <= i < n :: candidates[i] in b.claimed && b.claimed[candidates[i]] == tokens[i]
    }
  }

  lemma SelectOpens(s: State, l: Label, s': State, call: ClaimCall)
    requires Step(s, l, s') && l == BatchSelect(call.tx, call.limit, call.candidates, call.time)
    requires |call.tokens| == |call.candidates|
    ensures call.Midway(s', 0) && s'.rows == s.rows && Selection.Distinct(call.candidates)
  {
  }

  lemma UpdateAdds(s: State, l: Label, s': State, call: ClaimCall, n: nat)
    requires n < |call.candidates| == |call.tokens| && Selection.Distinct(call.candidates)
    requires Step(s, l, s') && l == BatchUpdate(call.tx, call.candidates[n], call.tokens[n]) && call.Midway(s, n)
    ensures call.Midway(s', n + 1) && s'.rows == s.rows
  {
    assert call.candidates[..n + 1] == call.candidates[..n] + [call.candidates[n]];
    assert call.candidates[n] !in call.candidates[..n];
  }

  lemma RollbackLeaves(s: State, tx: TxId, s': State)
    requires Step(s, BatchRollback(tx), s')
    ensures s'.rows == s.rows
  {
  }

  lemma BetweenTwo(at: seq<nat>, n: nat, j: nat)
    requires (forall i, k | 0 <= i < k < |at| :: at[i] < at[k]) && n + 1 < |at| && at[n] < j < at[n + 1]
    ensures j !in at && at[0] < j < at[|at| - 1]
  {
    forall i | 0 <= i < |at| ensures at[i] != j {
      if i < n { assert at[i] < at[n]; } else if i > n + 1 { assert at[n + 1] < at[i]; }
    }
    assert n > 0 ==> at[0] < at[n];
    assert n + 1 < |at| - 1 ==> at[n + 1] < at[|at| - 1];
  }

  /** Between two of its statements only others act. */
  lemma Undisturbed(tr: Trace, call: ClaimCall, updates: nat, commits: bool, n: nat)
    requires tr.Valid() && call.In(tr, updates, commits) && n + 1 < |call.at|
    requires call.tx in tr.states[call.at[n] + 1].batches
    ensures call.tx in tr.states[call.at[n + 1]].batches
    ensures tr.states[call.at[n + 1]].batches[call.tx] == tr.states[call.at[n] + 1].batches[call.tx]
  {
    forall j {:trigger tr.labels[j]} | call.at[n] + 1 <= j < call.at[n + 1] ensures !Touches(tr.labels[j], call.tx) {
      BetweenTwo(call.at, n, j);
    }
    OthersKeep(tr, call.tx, call.at[n] + 1, call.at[n + 1]);
  }

  /** The `n`-th statement of the call does its part, and shows nothing. */
  lemma StatementAt(tr: Trace, call: ClaimCall, updates: nat, commits: bool, n: nat)
    requires tr.Valid() && call.In(tr, updates, commits) && n <= updates
    requires n > 0 ==> Selection.Distinct(call.candidates) && call.Midway(tr.states[call.at[n]], n - 1)
    ensures Selection.Distinct(call.candidates) && call.Midway(tr.states[call.at[n] + 1], n)
    ensures tr.states[call.at[n] + 1].rows == tr.states[call.at[n]].rows
  {
    var k := call.at[n];
    if n == 0 {
      SelectOpens(tr.states[k], tr.labels[k], tr.states[k + 1], call);
    } else {
      assert call.at[n - 1 + 1] == k;
      UpdateAdds(tr.states[k], tr.labels[k], tr.states[k + 1], call, n - 1);
    }
  }

  /** Where the call stands after `n` updates, and that none of them showed. */
  lemma {:induction false} MidwayAt(tr: Trace, call: ClaimCall, updates: nat, commits: bool, n: nat)
    requires tr.Valid() && call.In(tr, updates, commits) && n <= updates
    ensures Selection.Distinct(call.candidates) && call.Midway(tr.states[call.at[n + 1]], n)
    ensures tr.states[call.at[n] + 1].rows == tr.states[call.at[n]].rows
  {
    if n > 0 { MidwayAt(tr, call, updates, commits, n - 1); }
    StatementAt(tr, call, updates, commits, n);
    Undisturbed(tr, call, updates, commits, n);
  }

  /** A call that ends in a rollback shows nothing. */
  lemma RolledBack(tr: Trace, call: ClaimCall, updates: nat)
    requires tr.Valid() && call.In(tr, updates, false)
    ensures forall i | 0 <= i < |call.at| :: tr.states[call.at[i] + 1].rows == tr.states[call.at[i]].rows
  {
    forall i | 0 <= i < |call.at| ensures tr.states[call.at[i] + 1].rows == tr.states[call.at[i]].rows {
      if i <= updates { MidwayAt(tr, call, updates, false, i); }
      else { RollbackLeaves(tr.states[call.Last()], call.tx, tr.states[call.Last() + 1]); }
    }
  }

  /** The list built by the loop is what the transaction reports. */
  lemma ListsReported(b: Batch, candidates: seq<RunId>, tokens: seq<Token>, claimed: seq<Claim>)
    requires |claimed| == |candidates| == |tokens| && Selection.Distinct(candidates)
    requires b.claimed.Keys == Members(candidates)
    requires forall i | 0 <= i < |candidates| :: b.claimed[candidates[i]] == tokens[i]
    requires forall i | 0 <= i < |claimed| :: claimed[i] == Claim(candidates[i], tokens[i])
    ensures Selection.Distinct(claimed) && forall c :: c in claimed <==> c in b.Reported()
  {
    forall c ensures c in claimed <==> c in b.Reported() {
      if c in b.Reported() {
        var i :| 0 <= i < |candidates| && candidates[i] == c.run;
        assert claimed[i] == c;
      }
      if c in claimed {
        var i :| 0 <= i < |claimed| && claimed[i] == c;
        assert candidates[i] in candidates;
      }
    }
  }

  lemma CommitReports(tr: Trace, call: ClaimCall, claimed: seq<Claim>)
    requires tr.Valid() && call.In(tr, |call.candidates|, true)
    requires |claimed| == |call.candidates|
    requires forall i | 0 <= i < |claimed| :: claimed[i] == Claim(call.candidates[i], call.tokens[i])
    ensures PollFeed.Poll(call.tx, call.Last()).Answers(tr, call.limit, claimed)
    ensures forall c | c in claimed :: ClaimedAt(tr, call.Last(), c.run, c.token)
  {
    MidwayAt(tr, call, |call.candidates|, true, |call.candidates|);
    assert call.candidates[..|call.candidates|] == call.candidates;
    ListsReported(tr.states[call.Last()].batches[call.tx], call.candidates, call.tokens, claimed);
    forall c | c in claimed ensures ClaimedAt(tr, call.Last(), c.run, c.token) {
      PollFeed.ReportedIsClaimed(tr, PollFeed.Poll(call.tx, call.Last()), call.limit, claimed, c);
    }
  }

  /**
    `claimNextQueued`. `failsAt` is the UPDATE, or with `|candidates|` the COMMIT, at which the connection breaks, if
    it does. No row count is looked at, and other clients act between any two statements; yet every reported pair is
    a claim made by the COMMIT, the answer is one the poll loop may rely on, and a call that fails changes no row.
   */
  method ClaimNextQueued(candidates: seq<RunId>, tokens: seq<Token>, failsAt: Option<nat>, ghost tr: Trace,
                         ghost call: ClaimCall)
    returns (reply: Result<seq<Claim>, string>)
    requires tr.Valid() && call.candidates == candidates && call.tokens == tokens
    requires call.In(tr, if failsAt.Some? then failsAt.value else |candidates|, failsAt.None?)
    ensures reply.Err? <==> failsAt.Some?
    ensures reply.Ok? ==>
              && PollFeed.Poll(call.tx, call.Last()).Answers(tr, call.limit, reply.value)
              && |reply.value| == |candidates|
              && (forall i | 0 <= i < |candidates| :: reply.value[i] == Claim(candidates[i], tokens[i]))
              && (forall c | c in reply.value :: ClaimedAt(tr, call.Last(), c.run, c.token))
    ensures reply.Err? ==> forall i | 0 <= i < |call.at| :: tr.states[call.at[i] + 1].rows == tr.states[call.at[i]].rows
  {
    if failsAt.Some? { RolledBack(tr, call, failsAt.value); }
    var claimed: seq<Claim> := [];
    for n := 0 to |candidates|
      invariant |claimed| == n && forall i | 0 <= i < n :: claimed[i] == Claim(candidates[i], tokens[i])
    {
      if failsAt == Some(n) { return Err("claim failed"); }
      claimed := claimed + [Claim(candidates[n], tokens[n])];
    }
    if failsAt.Some? { return Err("claim failed"); }
    CommitReports(tr, call, claimed);
    return Ok(claimed);
  }

  // ---------------------------------------------------------------- sweeping

  /** The sweeper's query at step `list` answered with `items`. */
  ghost predicate Found(tr: Trace, list: nat, items: seq<Listed>) {
    && list < |tr.labels| < |tr.states| && tr.labels[list].ListRunning? && |items| == |tr.labels[list].listed|
    && forall i | 0 <= i < |items| ::
         var run := tr.labels[list].listed[i];
         run in tr.states[list].rows && items[i] == Listed(run, tr.states[list].rows[run].token)
  }

  /** The item's attempt was RUNNING in every state from the listing to step `k`. */
  ghost predicate RanFrom(tr: Trace, list: nat, k: nat, item: Listed)
    requires k < |tr.states|
  {
    item.fence.Some? && forall j | list <= j <= k :: RunningUnder(tr.states[j].rows, item.run, item.fence.value)
  }

  lemma FoundRunning(tr: Trace, list: nat, items: seq<Listed>, i: nat)
    requires tr.Valid() && Found(tr, list, items) && i < |items|
    ensures items[i].fence.Some? && RunningUnder(tr.states[list].rows, items[i].run, items[i].fence.value)
    ensures items[i].fence.value in tr.states[list].seen
  {
    var run := tr.labels[list].listed[i];
    assert run in tr.labels[list].listed;
    ListedByStart(tr, list, Running, run);
    Reachable(tr, list);
    assert Shaped(tr.states[list].rows[run]);
  }

  /** One mark, at whatever time it gets through: it counts exactly if the listed attempt ran all along. */
  lemma MarkCountsIff(tr: Trace, list: nat, items: seq<Listed>, i: nat, k: nat)
    requires tr.Valid() && Found(tr, list, items) && i < |items| && list < k < |tr.labels|
    requires tr.labels[k].SweepRunning? && tr.labels[k].item == items[i]
    ensures tr.states[k + 1].rows != tr.states[k].rows <==> RanFrom(tr, list, k, items[i])
    ensures items[i].fence.Some?
    ensures forall m | k < m < |tr.states| :: !RunningUnder(tr.states[m].rows, items[i].run, items[i].fence.value)
  {
    FoundRunning(tr, list, items, i);
    var run, token := items[i].run, items[i].fence.value;
    if RunningUnder(tr.states[k].rows, run, token) {
      HolderWritesLand(tr.states[k], tr.labels[k], tr.states[k + 1], run, token);
      RanAllAlong(tr, list, k, run, token);
    } else {
      LateCompletion(tr.states[k], tr.labels[k], tr.states[k + 1], run, token);
    }
    Grows(tr, list, k + 1);
    forall m | k < m < |tr.states| ensures !RunningUnder(tr.states[m].rows, run, token) {
      NeverRunsAgain(tr, k + 1, m, run, token);
    }
  }

  /** The mark of item `i` got through at step `at[i]`, and `replies[i]` tells whether it changed the row. */
  ghost predicate Marked(tr: Trace, list: nat, items: seq<Listed>, replies: seq<Option<bool>>, at: seq<nat>)
  {
    && |replies| == |items| == |at| && |tr.states| == |tr.labels| + 1
    && forall i | 0 <= i < |items| && replies[i].Some? ::
         && list < at[i] < |tr.labels| && tr.labels[at[i]].SweepRunning? && tr.labels[at[i]].item == items[i]
         && (replies[i].value <==> tr.states[at[i] + 1].rows != tr.states[at[i]].rows)
  }

  /** Item `i` was marked, and its attempt ran from the listing to the mark. */
  ghost predicate Swept(tr: Trace, list: nat, items: seq<Listed>, replies: seq<Option<bool>>, at: seq<nat>, i: nat)
    requires i < |items| == |replies| == |at|
  {
    replies[i].Some? && at[i] < |tr.states| && RanFrom(tr, list, at[i], items[i])
  }

  /**
    `_sweepRunning`: a mark that fails is swallowed, and any steps may come between two marks. The runs it logs are
    exactly those whose listed attempt ran from the listing to its mark, and no marked item is ever RUNNING again.
   */
  method SweepRunning(items: seq<Listed>, replies: seq<Option<bool>>, ghost tr: Trace, ghost list: nat,
                      ghost at: seq<nat>)
    returns (logged: seq<RunId>)
    requires tr.Valid() && Found(tr, list, items) && Marked(tr, list, items, replies, at)
    ensures forall r :: r in logged <==>
              exists i | 0 <= i < |items| :: items[i].run == r && Swept(tr, list, items, replies, at, i)
    ensures forall i, m | 0 <= i < |items| && replies[i].Some? && at[i] < m < |tr.states| ::
              items[i].fence.Some? && !RunningUnder(tr.states[m].rows, items[i].run, items[i].fence.value)
  {
    SweepEnds(tr, list, items, replies, at);
    logged := LogMarked(seq(|items|, i requires 0 <= i < |items| => items[i].run), replies);
  }

  lemma SweepEnds(tr: Trace, list: nat, items: seq<Listed>, replies: seq<Option<bool>>, at: seq<nat>)
    requires tr.Valid() && Found(tr, list, items) && Marked(tr, list, items, replies, at)
    ensures forall i | 0 <= i < |items| :: Swept(tr, list, items, replies, at, i) <==> replies[i] == Some(true)
    ensures forall i, m | 0 <= i < |items| && replies[i].Some? && at[i] < m < |tr.states| ::
              items[i].fence.Some? && !RunningUnder(tr.states[m].rows, items[i].run, items[i].fence.value)
  {
    forall i | 0 <= i < |items|
      ensures Swept(tr, list, items, replies, at, i) <==> replies[i] == Some(true)
      ensures forall m | replies[i].Some? && at[i] < m < |tr.states| ::
                items[i].fence.Some? && !RunningUnder(tr.states[m].rows, items[i].run, items[i].fence.value)
    {
      if replies[i].Some? { MarkCountsIff(tr, list, items, i, at[i]); }
    }
  }

  /** The loop of either sweep: one mark per run, a mark that fails is swallowed, one that changed its row is logged. */
  method LogMarked(runs: seq<RunId>, replies: seq<Option<bool>>) returns (logged: seq<RunId>)
    requires |replies| == |runs|
    ensures forall r :: r in logged <==> exists i | 0 <= i < |runs| :: runs[i] == r && replies[i] == Some(true)
  {
    logged := [];
    for n := 0 to |runs|
      invariant forall r :: r in logged <==> exists i | 0 <= i < n :: runs[i] == r && replies[i] == Some(true)
    {
      if replies[n] == Some(true) { logged := logged + [runs[n]]; }
    }
  }

  /**
    `_sweepCancelling`, likewise: every run whose mark got through is CANCELLED from then on, on the attempt that was
    listed, and the runs it logs are exactly those it moved itself.
   */
  method SweepCancelling(listed: seq<RunId>, replies: seq<Option<bool>>, ghost tr: Trace, ghost at: seq<nat>)
    returns (logged: seq<RunId>)
    requires tr.Valid() && |replies| == |listed| == |at|
    requires forall i | 0 <= i < |listed| && replies[i].Some? ::
               && at[i] < |tr.labels| && tr.labels[at[i]].SweepCancelling? && tr.labels[at[i]].run == listed[i]
               && (replies[i].value <==> tr.states[at[i] + 1].rows != tr.states[at[i]].rows)
    ensures forall i, m | 0 <= i < |listed| && replies[i].Some? && at[i] < m < |tr.states| ::
              listed[i] in tr.states[m].rows && tr.states[m].rows[listed[i]].state == Cancelled
    ensures forall r :: r in logged <==>
              exists i | 0 <= i < |listed| ::
                listed[i] == r && replies[i].Some? && Crossed(tr, at[i], r, Cancelling, Cancelled)
  {
    forall i | 0 <= i < |listed| && replies[i].Some?
      ensures replies[i].value <==> Crossed(tr, at[i], listed[i], Cancelling, Cancelled)
      ensures forall m | at[i] < m < |tr.states| ::
                listed[i] in tr.states[m].rows && tr.states[m].rows[listed[i]].state == Cancelled
    {
      CancelMarkCloses(tr, at[i], listed[i]);
    }
    logged := LogMarked(listed, replies);
  }

  lemma CancelMarkCloses(tr: Trace, k: nat, run: RunId)
    requires tr.Valid() && k < |tr.labels| && tr.labels[k].SweepCancelling? && tr.labels[k].run == run
    ensures tr.states[k + 1].rows != tr.states[k].rows <==> Crossed(tr, k, run, Cancelling, Cancelled)
    ensures forall m | k < m < |tr.states| :: run in tr.states[m].rows && tr.states[m].rows[run].state == Cancelled
  {
    var i := UnfencedSweepIsSafe(tr, k);
    CancelMarkChanges(tr.states[k], tr.labels[k], tr.states[k + 1]);
    forall m | k < m < |tr.states| ensures run in tr.states[m].rows && tr.states[m].rows[run].state == Cancelled {
      CancelIsOneWay(tr, k + 1, m, run);
    }
  }

  lemma CancelMarkChanges(s: State, l: Label, s': State)
    requires Step(s, l, s') && l.SweepCancelling? && l.run in s.rows
    ensures s'.rows != s.rows <==> s.rows[l.run].state == Cancelling
  {
  }
}
