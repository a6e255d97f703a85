/** What a caller of the store can know of the history behind its rows, and how the rows show it. */
module RunHistory {
  import opened Options
  import opened RunTable
  import opened RunProtocol
  import opened RunInvariant
  import opened RunTheorems
  import opened RunAccounting

  /** A row of `run` was inserted at some time. */
  ghost predicate Ever(tr: Trace, run: RunId) { exists i | 0 <= i < |tr.states| :: run in tr.states[i].rows }

  lemma EverIff(tr: Trace, run: RunId)
    requires tr.Valid()
    ensures Ever(tr, run) <==> run in tr.Now().rows
  {
    if i :| 0 <= i < |tr.states| && run in tr.states[i].rows { Grows(tr, i, |tr.labels|); }
  }

  /** The claim was made and has been RUNNING ever since. */
  ghost predicate Holds(tr: Trace, c: Claim) {
    exists i: nat | i < |tr.labels| < |tr.states| ::
      ClaimedAt(tr, i, c.run, c.token) && HeldSince(tr, i, |tr.labels|, c.run, c.token)
  }

  lemma HoldsIff(tr: Trace, c: Claim)
    requires tr.Valid()
    ensures Holds(tr, c) <==> RunningUnder(tr.Now().rows, c.run, c.token)
  {
    var n := |tr.labels|;
    if RunningUnder(tr.states[n].rows, c.run, c.token) {
      var i := LatestClaim(tr, n, c.run);
      HeldIff(tr, i, n, c.run, c.token);
    }
  }

  /** The proxy admits a request exactly if its token is that of a claim that has been RUNNING ever since. */
  lemma ProxyAdmitsIff(tr: Trace, c: Claim)
    requires tr.Valid()
    ensures ProxyAdmits(tr.Now().rows, c.run, Some(c.token)) <==> Holds(tr, c)
    ensures !ProxyAdmits(tr.Now().rows, c.run, None)
  {
    HoldsIff(tr, c);
    Reachable(tr, |tr.labels|);
    if c.run in tr.Now().rows { assert Shaped(tr.Now().rows[c.run]); }
  }

  /** The claim was made and has been RUNNING or CANCELLING ever since. */
  ghost predicate LivesOn(tr: Trace, c: Claim) {
    exists i: nat | i < |tr.labels| < |tr.states| ::
      ClaimedAt(tr, i, c.run, c.token) && forall j | i < j <= |tr.labels| :: IsAlive(tr.states[j].rows, c.run, c.token)
  }

  lemma LivesOnIff(tr: Trace, c: Claim)
    requires tr.Valid()
    ensures LivesOn(tr, c) <==> IsAlive(tr.Now().rows, c.run, c.token)
  {
    var n := |tr.labels|;
    if IsAlive(tr.states[n].rows, c.run, c.token) {
      var i := LatestClaim(tr, n, c.run);
      AliveIff(tr, i, n, c.run, c.token);
    }
  }

  /** No claim of the history carries the token. */
  ghost predicate NeverClaimedUnder(tr: Trace, token: Token) {
    forall i: nat, r: RunId :: !ClaimedAt(tr, i, r, token)
  }

  lemma FreshTokenIsNew(tr: Trace, token: Token)
    requires tr.Valid() && token !in tr.Now().minted
    ensures NeverClaimedUnder(tr, token)
  {
    Reachable(tr, |tr.labels|);
    forall i: nat, r: RunId ensures !ClaimedAt(tr, i, r, token) {
      if ClaimedAt(tr, i, r, token) {
        TokenBecomesSeen(tr, i, r, token);
        Grows(tr, i + 1, |tr.labels|);
      }
    }
  }

  /** A cancel of the run was accepted at some time. */
  ghost predicate CancelAccepted(tr: Trace, run: RunId) {
    exists i: nat :: Crossed(tr, i, run, Running, Cancelling) || Crossed(tr, i, run, Queued, Cancelled)
  }

  lemma CancelAcceptedIff(tr: Trace, run: RunId)
    requires tr.Valid()
    ensures CancelAccepted(tr, run) <==> run in tr.Now().rows && tr.Now().rows[run].state in {Cancelling, Cancelled}
  {
    var n := |tr.labels|;
    if i: nat :| Crossed(tr, i, run, Running, Cancelling) || Crossed(tr, i, run, Queued, Cancelled) {
      AcceptedCancelIsFinal(tr, i, n, run);
    }
    if run in tr.states[n].rows && tr.states[n].rows[run].state in {Cancelling, Cancelled} {
      Conservation(tr, run, n);
      CountGrows(tr, run, Running, Cancelling, 0, n);
      CountGrows(tr, run, Queued, Cancelled, 0, n);
    }
  }
}
