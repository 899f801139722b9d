/** Any number of workers over one outbox table: claims, marks at any later time or never, replays, new events. */
module OutboxProtocol {
  import opened Wrappers
  import opened Outbox

  /** The table, every claim ever handed out, and which of them have been settled by a successful mark, in order. */
  datatype Protocol = Protocol(rows: seq<Row>, claims: seq<Event>, settled: seq<nat>)

  /** A worker that crashes simply never marks its claim; one that retries marks it again. */
  datatype Step =
    | Claim(worker: string, limit: int, now: int, lease: int, locked: set<nat>)
    | MarkSent(claim: nat)
    | MarkFailed(claim: nat, nextAttemptAt: int, maxAttempts: int)
    | Replay(row: nat, expected: nat, reason: string, actor: string, now: int)
    | Enqueue(payload: string, at: int)

  /** The claim's mark takes effect. */
  predicate Marks(p: Protocol, s: Step) {
    match s
    case MarkSent(k) => k < |p.claims| && StillLeased(p.rows, p.claims[k])
    case MarkFailed(k, _, maxAttempts) => k < |p.claims| && maxAttempts > 0 && StillLeased(p.rows, p.claims[k])
    case _ => false
  }

  predicate Replays(p: Protocol, s: Step) {
    s.Replay? && ValidReplay(s.expected, s.reason, s.actor, s.now)
    && s.row < |p.rows| && p.rows[s.row].leaseRevision == s.expected && p.rows[s.row].status == DeadLetter
  }

  function Next(p: Protocol, s: Step): Protocol {
    match s
    case Claim(worker, limit, now, lease, locked) =>
      if !ValidClaim(worker, limit, lease, now) then p
      else
        var selected := Selected(p.rows, limit, now, locked);
        p.(rows := LeaseAll(p.rows, selected, worker, now + lease),
           claims := p.claims + EventsOf(p.rows, selected, worker, now + lease))
    case MarkSent(k) =>
      if !Marks(p, s) then p
      else
        var i := p.claims[k].row;
        p.(rows := p.rows[i := SentRow(p.rows[i])], settled := p.settled + [k])
    case MarkFailed(k, nextAttemptAt, maxAttempts) =>
      if !Marks(p, s) then p
      else
        var i := p.claims[k].row;
        p.(rows := p.rows[i := FailedRow(p.rows[i], StatusAfterFailure(p.claims[k], maxAttempts), nextAttemptAt)],
           settled := p.settled + [k])
    case Replay(i, _, _, _, now) => if Replays(p, s) then p.(rows := p.rows[i := ReplayedRow(p.rows[i], now)]) else p
    case Enqueue(payload, at) => p.(rows := p.rows + [NewRow(payload, at)])
  }

  // ----- one step -----

  predicate SameRow(p: Protocol, next: Protocol, i: nat)
    requires i < |p.rows|
  {
    i < |next.rows| && next.rows[i] == p.rows[i]
  }

  /**
   * Every transition raises the row's lease revision; SENT is final; DEAD_LETTER is left only by a replay; and a
   * payload never changes.
   */
  lemma EveryStepFences(p: Protocol, s: Step, i: nat)
    requires i < |p.rows|
    ensures |Next(p, s).rows| >= |p.rows|
    ensures Next(p, s).rows[i].payload == p.rows[i].payload
    ensures SameRow(p, Next(p, s), i) || Next(p, s).rows[i].leaseRevision == p.rows[i].leaseRevision + 1
    ensures p.rows[i].status == Sent ==> SameRow(p, Next(p, s), i)
    ensures p.rows[i].status == DeadLetter && !SameRow(p, Next(p, s), i) ==>
              s.Replay? && s.row == i && Next(p, s).rows[i].status == Pending
  {
    if s.Claim? && ValidClaim(s.worker, s.limit, s.lease, s.now) {
      SelectedAreOldest(p.rows, s.limit, s.now, s.locked);
    }
  }

  // ----- every run -----

  /** The row is leased under exactly this claim. */
  predicate Holds(row: Row, e: Event) {
    && row.status == Processing && row.leaseRevision == e.leaseRevision && row.attempts == e.attempts
    && row.lockedBy == Some(e.lockedBy) && row.lockedUntil == Some(e.lockedUntil) && row.payload == e.payload
  }

  predicate Newest(claims: seq<Event>, k: nat)
    requires k < |claims|
  {
    forall l :: k < l < |claims| ==> claims[l].row != claims[k].row
  }

  /** The claim that can still be settled: the newest of its row, and not settled. */
  predicate Live(p: Protocol, k: nat)
    requires k < |p.claims|
  {
    Newest(p.claims, k) && k !in p.settled
  }

  predicate ClaimsRise(p: Protocol) {
    && (forall k :: 0 <= k < |p.claims| ==>
         p.claims[k].row < |p.rows| && p.claims[k].leaseRevision <= p.rows[p.claims[k].row].leaseRevision)
    && (forall k, l :: 0 <= k < l < |p.claims| && p.claims[k].row == p.claims[l].row ==>
         p.claims[k].leaseRevision < p.claims[l].leaseRevision)
  }

  predicate SettledOnce(p: Protocol) {
    && (forall n :: 0 <= n < |p.settled| ==>
         p.settled[n] < |p.claims| && p.claims[p.settled[n]].row < |p.rows|
         && p.claims[p.settled[n]].leaseRevision < p.rows[p.claims[p.settled[n]].row].leaseRevision)
    && (forall n, m :: 0 <= n < m < |p.settled| ==> p.settled[n] != p.settled[m])
  }

  predicate LiveHold(p: Protocol) {
    forall k :: 0 <= k < |p.claims| && Live(p, k) ==>
                  p.claims[k].row < |p.rows| && Holds(p.rows[p.claims[k].row], p.claims[k])
  }

  predicate Held(p: Protocol, i: nat)
    requires i < |p.rows|
  {
    exists k :: 0 <= k < |p.claims| && p.claims[k].row == i && Holds(p.rows[i], p.claims[k])
  }

  predicate RowShape(row: Row, max: nat) {
    && row.leaseRevision >= 1
    && (row.status == Pending ==> row.attempts < max)
    && (row.status != Processing ==> row.lockedBy.None? && row.lockedUntil.None?)
  }

  predicate Inv(p: Protocol, max: nat) {
    && ClaimsRise(p) && SettledOnce(p) && LiveHold(p)
    && (forall i :: 0 <= i < |p.rows| ==> RowShape(p.rows[i], max))
    && (forall i :: 0 <= i < |p.rows| && p.rows[i].status == Processing ==> Held(p, i))
  }

  /** No relay is configured with more attempts than `max`. */
  predicate Within(s: Step, max: nat) {
    max > 0 && (s.MarkFailed? ==> s.maxAttempts <= max)
  }

  lemma EnqueueKeepsInv(p: Protocol, s: Step, max: nat)
    requires Inv(p, max) && s.Enqueue? && Within(s, max)
    ensures Inv(Next(p, s), max)
  {
    hide Newest, Holds;
    var next := Next(p, s);
    forall k | 0 <= k < |p.claims| ensures Live(next, k) <==> Live(p, k) {}
    forall i | 0 <= i < |next.rows| && next.rows[i].status == Processing ensures Held(next, i) {
      assert Held(p, i);
      var k :| 0 <= k < |p.claims| && p.claims[k].row == i && Holds(p.rows[i], p.claims[k]);
    }
  }

  lemma ReplayKeepsInv(p: Protocol, s: Step, max: nat)
    requires Inv(p, max) && s.Replay? && Within(s, max)
    ensures Inv(Next(p, s), max)
  {
    hide Newest;
    var next := Next(p, s);
    if Replays(p, s) {
      forall k | 0 <= k < |p.claims| ensures Live(next, k) <==> Live(p, k) {}
      forall i | 0 <= i < |next.rows| && next.rows[i].status == Processing ensures Held(next, i) {
        var k :| 0 <= k < |p.claims| && p.claims[k].row == i && Holds(p.rows[i], p.claims[k]);
      }
    }
  }

  /** A mark that takes effect belongs to the live claim of its row. */
  lemma MarkedIsLive(p: Protocol, k: nat, max: nat)
    requires Inv(p, max) && k < |p.claims| && StillLeased(p.rows, p.claims[k])
    ensures Live(p, k) && Holds(p.rows[p.claims[k].row], p.claims[k])
  {
    var i := p.claims[k].row;
    assert Held(p, i);
    var l :| 0 <= l < |p.claims| && p.claims[l].row == i && Holds(p.rows[i], p.claims[l]);
    assert l == k;
  }

  /** Settling the live claim of a row: the row moves on, and no claim of it stays live. */
  lemma MarkKeepsInv(p: Protocol, s: Step, max: nat)
    requires Inv(p, max) && (s.MarkSent? || s.MarkFailed?) && Within(s, max)
    ensures Inv(Next(p, s), max)
  {
    hide ClaimsRise, SettledOnce, LiveHold, Held, Holds;
    if Marks(p, s) {
      MarkedIsLive(p, s.claim, max);
      var i := p.claims[s.claim].row;
      var row := Next(p, s).rows[i];
      assert RowShape(p.rows[i], max) && RowShape(row, max);
      SettleKeepsClaims(p, s.claim, row);
      SettleKeepsHolds(p, s.claim, row);
      assert Next(p, s) == Settled(p, s.claim, row);
    }
  }

  function Settled(p: Protocol, k: nat, row: Row): Protocol
    requires k < |p.claims| && p.claims[k].row < |p.rows|
  {
    p.(rows := p.rows[p.claims[k].row := row], settled := p.settled + [k])
  }

  lemma SettleKeepsClaims(p: Protocol, k: nat, row: Row)
    requires ClaimsRise(p) && SettledOnce(p) && k < |p.claims| && k !in p.settled
    requires p.rows[p.claims[k].row].leaseRevision == p.claims[k].leaseRevision
    requires row.leaseRevision == p.claims[k].leaseRevision + 1
    ensures ClaimsRise(Settled(p, k, row)) && SettledOnce(Settled(p, k, row))
  {
    var next := Settled(p, k, row);
    forall n | 0 <= n < |next.settled|
      ensures next.settled[n] < |p.claims|
      ensures p.claims[next.settled[n]].leaseRevision < next.rows[p.claims[next.settled[n]].row].leaseRevision
    {
      if n < |p.settled| { assert next.settled[n] == p.settled[n]; }
    }
  }

  lemma SettleKeepsHolds(p: Protocol, k: nat, row: Row)
    requires ClaimsRise(p) && LiveHold(p) && k < |p.claims| && Live(p, k) && row.status != Processing
    requires forall i :: 0 <= i < |p.rows| && p.rows[i].status == Processing ==> Held(p, i)
    ensures LiveHold(Settled(p, k, row))
    ensures forall i :: 0 <= i < |p.rows| && Settled(p, k, row).rows[i].status == Processing ==>
              Held(Settled(p, k, row), i)
  {
    hide Holds;
    var next := Settled(p, k, row);
    forall l | 0 <= l < |p.claims| && Live(next, l) ensures Live(p, l) && p.claims[l].row != p.claims[k].row {
      forall n | 0 <= n < |p.settled| ensures p.settled[n] != l { assert next.settled[n] == p.settled[n]; }
      assert next.settled[|p.settled|] == k;
    }
    forall i | 0 <= i < |next.rows| && next.rows[i].status == Processing ensures Held(next, i) {
      assert Held(p, i);
      var l :| 0 <= l < |p.claims| && p.claims[l].row == i && Holds(p.rows[i], p.claims[l]);
    }
  }

  function Claimed(p: Protocol, selected: seq<nat>, worker: string, until: int): Protocol
    requires forall k :: 0 <= k < |selected| ==> selected[k] < |p.rows|
  {
    p.(rows := LeaseAll(p.rows, selected, worker, until),
       claims := p.claims + EventsOf(p.rows, selected, worker, until))
  }

  lemma ClaimKeepsClaims(p: Protocol, selected: seq<nat>, worker: string, until: int)
    requires ClaimsRise(p) && SettledOnce(p)
    requires forall k :: 0 <= k < |selected| ==> selected[k] < |p.rows|
    requires forall j, k :: 0 <= j < k < |selected| ==> selected[j] < selected[k]
    ensures ClaimsRise(Claimed(p, selected, worker, until)) && SettledOnce(Claimed(p, selected, worker, until))
  {
    var next, m := Claimed(p, selected, worker, until), |p.claims|;
    forall k | 0 <= k < |next.claims|
      ensures next.claims[k].row < |next.rows|
      ensures k < m ==>
                next.claims[k] == p.claims[k] && next.claims[k].leaseRevision <= p.rows[p.claims[k].row].leaseRevision
      ensures k >= m ==> next.claims[k].row == selected[k - m]
                         && next.claims[k].leaseRevision == p.rows[selected[k - m]].leaseRevision + 1
    {
    }
    forall k | m <= k < |next.claims|
      ensures next.rows[next.claims[k].row].leaseRevision == next.claims[k].leaseRevision
    {
      assert selected[k - m] in selected;
    }
  }

  lemma ClaimKeepsHolds(p: Protocol, selected: seq<nat>, worker: string, until: int)
    requires ClaimsRise(p) && SettledOnce(p) && LiveHold(p)
    requires forall k :: 0 <= k < |selected| ==> selected[k] < |p.rows|
    ensures LiveHold(Claimed(p, selected, worker, until))
  {
    var next, m := Claimed(p, selected, worker, until), |p.claims|;
    forall k | 0 <= k < |next.claims| && Live(next, k)
      ensures next.claims[k].row < |next.rows| && Holds(next.rows[next.claims[k].row], next.claims[k])
    {
      var e := next.claims[k];
      if k < m {
        assert e == p.claims[k];
        assert Live(p, k) by {
          forall l | k < l < m ensures p.claims[l].row != e.row { assert next.claims[l] == p.claims[l]; }
        }
        forall j | 0 <= j < |selected| ensures selected[j] != e.row { assert next.claims[m + j].row == selected[j]; }
      } else {
        assert selected[k - m] in selected;
      }
    }
  }

  lemma ClaimKeepsHeld(p: Protocol, selected: seq<nat>, worker: string, until: int, i: nat)
    requires i < |p.rows| && (p.rows[i].status == Processing ==> Held(p, i))
    requires forall k :: 0 <= k < |selected| ==> selected[k] < |p.rows|
    ensures Claimed(p, selected, worker, until).rows[i].status == Processing ==>
              Held(Claimed(p, selected, worker, until), i)
  {
    var next, m := Claimed(p, selected, worker, until), |p.claims|;
    if i in selected {
      var j :| 0 <= j < |selected| && selected[j] == i;
      assert Holds(next.rows[i], next.claims[m + j]);
    } else if p.rows[i].status == Processing {
      var k :| 0 <= k < m && p.claims[k].row == i && Holds(p.rows[i], p.claims[k]);
      assert next.claims[k] == p.claims[k];
    }
  }

  lemma ClaimKeepsInv(p: Protocol, s: Step, max: nat)
    requires Inv(p, max) && s.Claim? && Within(s, max)
    ensures Inv(Next(p, s), max)
  {
    hide ClaimsRise, SettledOnce, LiveHold, Held, Claimed, Selected;
    if ValidClaim(s.worker, s.limit, s.lease, s.now) {
      var selected, until := Selected(p.rows, s.limit, s.now, s.locked), s.now + s.lease;
      ClaimIsClaimed(p, s);
      ClaimKeepsClaims(p, selected, s.worker, until);
      ClaimKeepsHolds(p, selected, s.worker, until);
      forall i | 0 <= i < |p.rows|
        ensures Next(p, s).rows[i].status == Processing ==> Held(Next(p, s), i)
        ensures RowShape(Next(p, s).rows[i], max)
      {
        assert RowShape(p.rows[i], max);
        ClaimKeepsHeld(p, selected, s.worker, until, i);
      }
    }
  }

  lemma ClaimIsClaimed(p: Protocol, s: Step)
    requires s.Claim? && ValidClaim(s.worker, s.limit, s.lease, s.now)
    ensures Next(p, s) == Claimed(p, Selected(p.rows, s.limit, s.now, s.locked), s.worker, s.now + s.lease)
    ensures |Next(p, s).rows| == |p.rows|
  {
  }

  predicate AllWithin(steps: seq<Step>, max: nat) {
    forall n :: 0 <= n < |steps| ==> Within(steps[n], max)
  }

  function Run(steps: seq<Step>): Protocol {
    if steps == [] then Protocol([], [], []) else Next(Run(steps[..|steps| - 1]), steps[|steps| - 1])
  }

  lemma StepKeepsInv(p: Protocol, s: Step, max: nat)
    requires Inv(p, max) && Within(s, max)
    ensures Inv(Next(p, s), max)
  {
    hide Inv, Next;
    match s
    case Claim(_, _, _, _, _) => ClaimKeepsInv(p, s, max);
    case MarkSent(_) => MarkKeepsInv(p, s, max);
    case MarkFailed(_, _, _) => MarkKeepsInv(p, s, max);
    case Replay(_, _, _, _, _) => ReplayKeepsInv(p, s, max);
    case Enqueue(_, _) => EnqueueKeepsInv(p, s, max);
  }

  lemma NothingHappened(p: Protocol, max: nat)
    requires |p.rows| == 0 && |p.claims| == 0 && |p.settled| == 0
    ensures Inv(p, max)
  {
  }

  lemma {:induction false} EveryRunKeepsInv(steps: seq<Step>, max: nat)
    requires AllWithin(steps, max)
    ensures Inv(Run(steps), max)
  {
    hide Next, Inv, Within;
    if steps == [] {
      NothingHappened(Run(steps), max);
    } else {
      assert forall n :: 0 <= n < |steps| - 1 ==> steps[..|steps| - 1][n] == steps[n];
      EveryRunKeepsInv(steps[..|steps| - 1], max);
      StepKeepsInv(Run(steps[..|steps| - 1]), steps[|steps| - 1], max);
    }
  }

  /**
   * The fence, after any run: a mark takes effect exactly when its claim is the newest of its row and has not been
   * settled. In particular every claim is settled at most once, and a waiting row has attempts left.
   */
  lemma MarkSucceedsExactlyForLiveClaim(steps: seq<Step>, max: nat, k: nat)
    requires AllWithin(steps, max) && k < |Run(steps).claims|
    ensures StillLeased(Run(steps).rows, Run(steps).claims[k]) <==> Live(Run(steps), k)
  {
    EveryRunKeepsInv(steps, max);
    if StillLeased(Run(steps).rows, Run(steps).claims[k]) { MarkedIsLive(Run(steps), k, max); }
  }

  lemma ClaimsAreSettledOnce(steps: seq<Step>, max: nat)
    requires AllWithin(steps, max)
    ensures SettledOnce(Run(steps))
    ensures forall i :: 0 <= i < |Run(steps).rows| && Run(steps).rows[i].status == Pending ==>
              Run(steps).rows[i].attempts < max
  {
    EveryRunKeepsInv(steps, max);
  }

  /** A row leased to a worker has exactly one live claim, and it is that worker's. */
  lemma LeasedRowHasOneLiveClaim(steps: seq<Step>, max: nat, i: nat) returns (k: nat)
    requires AllWithin(steps, max) && i < |Run(steps).rows| && Run(steps).rows[i].status == Processing
    ensures k < |Run(steps).claims| && Run(steps).claims[k].row == i && Live(Run(steps), k)
    ensures Run(steps).rows[i].lockedBy == Some(Run(steps).claims[k].lockedBy)
    ensures forall l :: 0 <= l < |Run(steps).claims| && Run(steps).claims[l].row == i && Live(Run(steps), l) ==> l == k
  {
    EveryRunKeepsInv(steps, max);
    var p := Run(steps);
    assert Held(p, i);
    k :| 0 <= k < |p.claims| && p.claims[k].row == i && Holds(p.rows[i], p.claims[k]);
    MarkedIsLive(p, k, max);
  }

  /** Rows only move forward over any run: revisions never fall, a sent row stays exactly as it is. */
  lemma {:induction false} SentIsFinal(steps: seq<Step>, more: seq<Step>, i: nat)
    requires i < |Run(steps).rows|
    ensures i < |Run(steps + more).rows|
    ensures Run(steps + more).rows[i].leaseRevision >= Run(steps).rows[i].leaseRevision
    ensures Run(steps).rows[i].status == Sent ==> Run(steps + more).rows[i] == Run(steps).rows[i]
  {
    if more == [] {
      assert steps + more == steps;
    } else {
      var n := |more| - 1;
      SentIsFinal(steps, more[..n], i);
      assert (steps + more)[..|steps + more| - 1] == steps + more[..n];
      EveryStepFences(Run(steps + more[..n]), more[n], i);
    }
  }
}
