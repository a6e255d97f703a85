/** The pull worker's poll loop: what it owns, what it executes and how much of it at once. */
module PollLoop {
  import opened Options
  import opened RunTable

  /**
    `owned` feeds the heartbeat, `active` holds the executions in flight, and `reserved` is the number of
    free slots a poll read before it awaited its claim.
   */
  datatype Loop = Loop(owned: map<RunId, Token>, active: set<Claim>, reserved: Option<nat>)

  datatype Event = BeginPoll | EndPoll(claimed: seq<Claim>) | Settle(done: Claim)

  function Track(s: Loop, claims: seq<Claim>): Loop {
    if claims == [] then s
    else
      var before := Track(s, claims[..|claims| - 1]);
      var c := claims[|claims| - 1];
      before.(owned := before.owned[c.run := c.token], active := before.active + {c})
  }

  /** What a claim may answer: at most `limit` pairs, of different runs, none of which is executing already. */
  ghost predicate Answers(s: Loop, limit: nat, claimed: seq<Claim>) {
    && |claimed| <= limit
    && (forall i, j | 0 <= i < j < |claimed| :: claimed[i].run != claimed[j].run)
    && (forall c | c in claimed :: c !in s.active)
  }

  /** One poll loop: the next poll is scheduled only after the last one ended. */
  ghost predicate Can(s: Loop, e: Event) {
    match e
    case BeginPoll => s.reserved.None?
    case EndPoll(claimed) => s.reserved.Some? && Answers(s, s.reserved.value, claimed)
    case Settle(done) => done in s.active
  }

  function Do(s: Loop, e: Event, capacity: nat): Loop {
    match e
    case BeginPoll => if capacity <= |s.active| then s else s.(reserved := Some(capacity - |s.active|))
    case EndPoll(claimed) => Track(s, claimed).(reserved := None)
    case Settle(done) => s.(owned := s.owned - {done.run}, active := s.active - {done})
  }

  // ---------------------------------------------------------------- what tracking does

  lemma {:induction false} TrackActive(s: Loop, claims: seq<Claim>)
    ensures Track(s, claims).active == s.active + (set c | c in claims)
    ensures Track(s, claims).reserved == s.reserved
    ensures |Track(s, claims).active| <= |s.active| + |claims|
  {
    if claims != [] {
      var init, last := claims[..|claims| - 1], claims[|claims| - 1];
      TrackActive(s, init);
      assert claims == init + [last];
      var before := Track(s, init).active;
      assert |before + {last}| <= |before| + 1;
    }
  }

  /** What `owned` maps `run` to once `claims` are tracked: the claim of that run, or what it was before. */
  lemma {:induction false} TrackOwned(s: Loop, claims: seq<Claim>, run: RunId)
    requires forall i, j | 0 <= i < j < |claims| :: claims[i].run != claims[j].run
    ensures var after := Track(s, claims).owned;
            && (forall i | 0 <= i < |claims| && claims[i].run == run :: run in after && after[run] == claims[i].token)
            && ((forall i | 0 <= i < |claims| :: claims[i].run != run) ==>
                  (run in after <==> run in s.owned) && (run in after ==> after[run] == s.owned[run]))
  {
    if claims != [] { TrackOwned(s, claims[..|claims| - 1], run); }
  }

  lemma TrackAdds(s: Loop, claims: seq<Claim>)
    requires forall i, j | 0 <= i < j < |claims| :: claims[i].run != claims[j].run
    ensures Track(s, claims).active == s.active + (set c | c in claims)
    ensures Track(s, claims).reserved == s.reserved
    ensures forall c | c in claims :: c.run in Track(s, claims).owned && Track(s, claims).owned[c.run] == c.token
    ensures forall r | r in Track(s, claims).owned ::
              || Claim(r, Track(s, claims).owned[r]) in claims
              || (r in s.owned && s.owned[r] == Track(s, claims).owned[r])
    ensures forall r | r in s.owned && (forall c | c in claims :: c.run != r) ::
              r in Track(s, claims).owned && Track(s, claims).owned[r] == s.owned[r]
    ensures |Track(s, claims).active| <= |s.active| + |claims|
  {
    TrackActive(s, claims);
    var after := Track(s, claims).owned;
    forall c | c in claims ensures c.run in after && after[c.run] == c.token {
      TrackOwned(s, claims, c.run);
    }
    forall r | r in after ensures Claim(r, after[r]) in claims || (r in s.owned && s.owned[r] == after[r]) {
      TrackOwned(s, claims, r);
      if i :| 0 <= i < |claims| && claims[i].run == r { assert claims[i] == Claim(r, after[r]); }
    }
    forall r | r in s.owned && (forall c | c in claims :: c.run != r) ensures r in after && after[r] == s.owned[r] {
      TrackOwned(s, claims, r);
    }
  }

  // ---------------------------------------------------------------- invariants

  ghost predicate WithinCapacity(s: Loop, capacity: nat) {
    |s.active| + (if s.reserved.Some? then s.reserved.value else 0) <= capacity
  }

  /** Every owned pair is being executed, under that same token. */
  ghost predicate OwnedIsActive(s: Loop) {
    forall r | r in s.owned :: Claim(r, s.owned[r]) in s.active
  }

  /** Every execution is heartbeated. */
  ghost predicate ActiveIsOwned(s: Loop) {
    forall c | c in s.active :: c.run in s.owned && s.owned[c.run] == c.token
  }

  lemma StepKeeps(s: Loop, e: Event, capacity: nat)
    requires Can(s, e) && WithinCapacity(s, capacity) && OwnedIsActive(s)
    ensures WithinCapacity(Do(s, e, capacity), capacity) && OwnedIsActive(Do(s, e, capacity))
  {
    match e
    case BeginPoll =>
    case EndPoll(claimed) => TrackAdds(s, claimed);
    case Settle(done) =>
  }

  // ---------------------------------------------------------------- whole runs of the loop

  const IDLE := Loop(map[], {}, None)

  ghost predicate Runs(states: seq<Loop>, events: seq<Event>, capacity: nat) {
    && |states| == |events| + 1 && states[0] == IDLE
    && forall i {:trigger events[i]} | 0 <= i < |events| ::
         Can(states[i], events[i]) && states[i + 1] == Do(states[i], events[i], capacity)
  }

  /**
    In every interleaving of polls and completions the worker executes at most `capacity` runs, and whatever
    it heartbeats it executes under that token, even after re-claiming a run whose old execution lives on.
   */
  lemma {:induction false} WorkerAccounting(states: seq<Loop>, events: seq<Event>, capacity: nat, n: nat)
    requires Runs(states, events, capacity) && n < |states|
    ensures |states[n].active| <= capacity && WithinCapacity(states[n], capacity) && OwnedIsActive(states[n])
  {
    if n > 0 {
      WorkerAccounting(states, events, capacity, n - 1);
      StepKeeps(states[n - 1], events[n - 1], capacity);
    }
  }

  /** The poll ending in this event claimed no run that the worker is still executing under an older token. */
  ghost predicate NoOverlap(s: Loop, e: Event) {
    e.EndPoll? ==> forall c, d | c in e.claimed && d in s.active :: c.run != d.run
  }

  lemma OneTokenPerRun(s: Loop, c: Claim, d: Claim)
    requires ActiveIsOwned(s) && c in s.active && d in s.active && c.run == d.run
    ensures c == d
  {
  }

  lemma NoOverlapKeepsOwned(s: Loop, e: Event, capacity: nat)
    requires Can(s, e) && ActiveIsOwned(s) && NoOverlap(s, e)
    ensures ActiveIsOwned(Do(s, e, capacity))
  {
    var s' := Do(s, e, capacity);
    match e
    case BeginPoll =>
    case EndPoll(claimed) => TrackAdds(s, claimed);
    case Settle(done) =>
      forall c | c in s'.active ensures c.run in s'.owned && s'.owned[c.run] == c.token {
        if c.run == done.run { OneTokenPerRun(s, c, done); }
      }
  }

  lemma OverlapLosesOwned(s: Loop, e: Event, capacity: nat)
    requires Can(s, e) && !NoOverlap(s, e)
    ensures !ActiveIsOwned(Do(s, e, capacity))
  {
    var c, d :| c in e.claimed && d in s.active && c.run == d.run;
    TrackAdds(s, e.claimed);
    var s' := Do(s, e, capacity);
    assert c in s'.active && d in s'.active && c != d;
    if ActiveIsOwned(s') { OneTokenPerRun(s', c, d); }
  }

  lemma {:induction false} OwnedThroughout(states: seq<Loop>, events: seq<Event>, capacity: nat, n: nat)
    requires Runs(states, events, capacity) && n < |states|
    requires forall i {:trigger events[i]} | 0 <= i < n :: NoOverlap(states[i], events[i])
    ensures forall m | 0 <= m <= n :: ActiveIsOwned(states[m])
  {
    if n > 0 {
      OwnedThroughout(states, events, capacity, n - 1);
      NoOverlapKeepsOwned(states[n - 1], events[n - 1], capacity);
    }
  }

  /** Every execution is heartbeated at all times exactly when the worker never re-claims a run it still executes. */
  lemma HeartbeatCoversIff(states: seq<Loop>, events: seq<Event>, capacity: nat, n: nat)
    requires Runs(states, events, capacity) && n < |states|
    ensures (forall m | 0 <= m <= n :: ActiveIsOwned(states[m]))
            <==> (forall i {:trigger events[i]} | 0 <= i < n :: NoOverlap(states[i], events[i]))
  {
    if i: int :| 0 <= i < n && !NoOverlap(states[i], events[i]) {
      OverlapLosesOwned(states[i], events[i], capacity);
      assert states[i + 1] == Do(states[i], events[i], capacity);
    } else {
      OwnedThroughout(states, events, capacity, n);
    }
  }

  /** The loss is real: a worker with two slots that claims a run again while it still executes it. */
  lemma ReclaimExample(run: RunId, a: Token, b: Token) returns (states: seq<Loop>, events: seq<Event>)
    requires a != b
    ensures Runs(states, events, 2)
    ensures events == [BeginPoll, EndPoll([Claim(run, a)]), BeginPoll, EndPoll([Claim(run, b)])]
    ensures states[1].reserved == Some(2) && states[3].reserved == Some(1)
    ensures states[4].active == {Claim(run, a), Claim(run, b)} && states[4].owned == map[run := b]
    ensures !ActiveIsOwned(states[4])
  {
    var one, two := Claim(run, a), Claim(run, b);
    var s2 := Loop(map[run := a], {one}, None);
    var s4 := Loop(map[run := b], {one, two}, None);
    events := [BeginPoll, EndPoll([one]), BeginPoll, EndPoll([two])];
    states := [IDLE, IDLE.(reserved := Some(2)), s2, s2.(reserved := Some(1)), s4];
    TrackOne(states[1], one);
    TrackOne(states[3], two);
    assert one in s4.active && s4.owned[run] != a;
  }

  lemma TrackOne(s: Loop, c: Claim)
    ensures Track(s, [c]) == s.(owned := s.owned[c.run := c.token], active := s.active + {c})
  {
    assert [c][..0] == [];
  }

  /** A run of the loop goes on with any event that is possible. */
  lemma RunsOn(states: seq<Loop>, events: seq<Event>, capacity: nat, e: Event)
    requires Runs(states, events, capacity) && Can(states[|events|], e)
    ensures Runs(states + [Do(states[|events|], e, capacity)], events + [e], capacity)
  {
  }

  /** `createPollLoop`: the captured variables as fields, the code between two awaits as methods. */
  class Worker {
    const capacity: nat
    var owned: map<RunId, Token>
    var active: set<Claim>
    var reserved: Option<nat>
    ghost var states: seq<Loop>
    ghost var events: seq<Event>

    ghost function View(): Loop
      reads this
    {
      Loop(owned, active, reserved)
    }

    /** The fields are where the events so far lead, so every theorem about runs of the loop is about this object. */
    ghost predicate Valid()
      reads this
    {
      Runs(states, events, capacity) && states[|events|] == View()
    }

    constructor (capacity: nat)
      ensures Valid() && this.capacity == capacity && events == []
    {
      this.capacity := capacity;
      owned, active, reserved := map[], {}, None;
      states, events := [IDLE], [];
    }

    /** `pollOnce` up to its await: the limit it passes to `claimNextQueued` never takes it over its capacity. */
    method BeginPoll() returns (limit: nat)
      requires Valid() && reserved.None?
      modifies this
      ensures Valid() && events == old(events) + [Event.BeginPoll] && active == old(active)
      ensures |active| + limit == capacity && (limit > 0 ==> reserved == Some(limit))
    {
      WorkerAccounting(states, events, capacity, |events|);
      RunsOn(states, events, capacity, Event.BeginPoll);
      limit := 0;
      if |active| < capacity {
        limit := capacity - |active|;
        reserved := Some(limit);
      }
      states, events := states + [View()], events + [Event.BeginPoll];
    }

    /** The loop of `pollOnce`: `track` for each claimed pair. */
    method TrackEach(claimed: seq<Claim>)
      modifies this`owned, this`active
      ensures View() == Track(old(View()), claimed)
    {
      for n := 0 to |claimed|
        invariant View() == Track(old(View()), claimed[..n])
      {
        assert claimed[..n + 1][..n] == claimed[..n];
        owned := owned[claimed[n].run := claimed[n].token];
        active := active + {claimed[n]};
      }
      assert claimed[..|claimed|] == claimed;
    }

    /** `pollOnce` after its await, with the claimed pairs (none if the claim failed). */
    method EndPoll(claimed: seq<Claim>)
      requires Valid() && reserved.Some? && Answers(View(), reserved.value, claimed)
      modifies this
      ensures Valid() && events == old(events) + [Event.EndPoll(claimed)]
      ensures |active| <= capacity && OwnedIsActive(View())
      ensures forall c | c in claimed :: c in active && c.run in owned && owned[c.run] == c.token
    {
      ghost var before := View();
      TrackEach(claimed);
      reserved := None;
      RunsOn(states, events, capacity, Event.EndPoll(claimed));
      TrackAdds(before, claimed);
      states, events := states + [View()], events + [Event.EndPoll(claimed)];
      WorkerAccounting(states, events, capacity, |events|);
    }

    /**
      The cleanup of a settled execution drops the run from `owned` whatever token is there; what is still
      owned is still being executed.
     */
    method Settle(done: Claim)
      requires Valid() && done in active
      modifies this
      ensures Valid() && events == old(events) + [Event.Settle(done)]
      ensures |active| == |old(active)| - 1 && done !in active && done.run !in owned && OwnedIsActive(View())
    {
      RunsOn(states, events, capacity, Event.Settle(done));
      owned := owned - {done.run};
      active := active - {done};
      states, events := states + [View()], events + [Event.Settle(done)];
      WorkerAccounting(states, events, capacity, |events|);
    }
  }
}
