/** The relay: claim a batch, deliver each event outside any transaction, and settle the claim. */
module Relay {
  import opened Wrappers
  import opened Outbox

  datatype Options = Options(workerId: string, batchSize: int, lease: int, maxAttempts: int, retryDelay: int)

  datatype RunResult = RunResult(claimed: nat, sent: nat, retried: nat, deadLetter: nat)

  /**
   * One delivery: whether the sender accepted it, when it ended, and the table other workers left by then, if they
   * wrote.
   */
  datatype Delivery = Delivery(accepted: bool, at: int, table: Option<seq<Row>>)

  function Accepted(deliveries: seq<Delivery>): nat {
    if deliveries == [] then 0
    else Accepted(deliveries[..|deliveries| - 1]) + if deliveries[|deliveries| - 1].accepted then 1 else 0
  }

  /** Where an undisturbed run leaves a claimed row. */
  predicate SettledAs(row: Row, e: Event, d: Delivery, o: Options) {
    row.status == (if d.accepted then Sent else StatusAfterFailure(e, o.maxAttempts))
    && row.leaseRevision == e.leaseRevision + 1 && row.payload == e.payload
  }

  /**
   * An undisturbed run after `n` deliveries: those claims are settled, the others still leased, other rows untouched.
   */
  predicate Progress(rows: seq<Row>, before: seq<Row>, selected: seq<nat>, events: seq<Event>,
                     deliveries: seq<Delivery>,
                     n: nat, o: Options)
    requires |selected| == |events| <= |deliveries| && n <= |events|
    requires forall k :: 0 <= k < |selected| ==> selected[k] < |before|
  {
    && |rows| == |before|
    && (forall k :: 0 <= k < n ==> SettledAs(rows[selected[k]], events[k], deliveries[k], o))
    && (forall k :: n <= k < |events| ==>
          StillLeased(rows, events[k]) && rows[selected[k]].payload == events[k].payload)
    && (forall i :: 0 <= i < |rows| && i !in selected ==> rows[i] == before[i])
  }

  /** Nobody else writes while the deliveries run. */
  predicate Quiet(o: Options, deliveries: seq<Delivery>) {
    o.maxAttempts > 0 && forall k :: 0 <= k < |deliveries| ==> deliveries[k].table.None?
  }

  predicate OneSettled(rows: seq<Row>, next: seq<Row>, e: Event, d: Delivery, o: Options) {
    && e.row < |rows| == |next| && SettledAs(next[e.row], e, d, o)
    && forall i :: 0 <= i < |rows| && i != e.row ==> next[i] == rows[i]
  }

  lemma LeasedStart(before: seq<Row>, selected: seq<nat>, deliveries: seq<Delivery>, o: Options, until: int)
    requires |selected| <= |deliveries| && forall k :: 0 <= k < |selected| ==> selected[k] < |before|
    ensures Progress(LeaseAll(before, selected, o.workerId, until), before, selected,
                     EventsOf(before, selected, o.workerId, until), deliveries, 0, o)
  {
    forall k | 0 <= k < |selected| ensures selected[k] in selected {}
  }

  lemma ProgressStep(rows: seq<Row>, next: seq<Row>, before: seq<Row>, selected: seq<nat>, events: seq<Event>,
                     deliveries: seq<Delivery>, n: nat, o: Options)
    requires |selected| == |events| <= |deliveries| && n < |events|
    requires forall k :: 0 <= k < |selected| ==> selected[k] < |before| && events[k].row == selected[k]
    requires forall j, k :: 0 <= j < k < |selected| ==> selected[j] < selected[k]
    requires Progress(rows, before, selected, events, deliveries, n, o)
    requires OneSettled(rows, next, events[n], deliveries[n], o)
    ensures Progress(next, before, selected, events, deliveries, n + 1, o)
  {
    hide SettledAs;
    assert selected[n] in selected;
  }

  /**
   * Every claimed event is counted exactly once: as sent, retried, dead, or as a persistence error. When no other
   * worker writes meanwhile there are no errors, and each claimed row ends as its delivery decided.
   */
  method RunOnce(store: Store, o: Options, now: int, locked: set<nat>, deliveries: seq<Delivery>)
    returns (r: Result<RunResult, OutboxError>, errors: seq<OutboxError>)
    requires |deliveries| >= o.batchSize
    modifies store
    ensures r.Success? <==> ValidClaim(o.workerId, o.batchSize, o.lease, now)
    ensures r.Success? ==> r.value.claimed == |Selected(old(store.rows), o.batchSize, now, locked)|
    ensures r.Success? ==> r.value.claimed == r.value.sent + r.value.retried + r.value.deadLetter + |errors|
    ensures r.Success? && Quiet(o, deliveries) ==>
              var selected := Selected(old(store.rows), o.batchSize, now, locked);
              var events := EventsOf(old(store.rows), selected, o.workerId, now + o.lease);
              && errors == [] && |selected| <= |deliveries| && r.value.sent == Accepted(deliveries[..|selected|])
              && Progress(store.rows, old(store.rows), selected, events, deliveries, |selected|, o)
  {
    hide Selected, Due, SettledAs, Progress, StillLeased, OneSettled, Quiet;
    errors := [];
    ghost var before := store.rows;
    var claim := store.Claim(o.workerId, o.batchSize, now, o.lease, locked);
    if claim.Failure? { return Failure(claim.error), errors; }
    var events := claim.value;
    ghost var selected := Selected(before, o.batchSize, now, locked);
    SelectedAreOldest(before, o.batchSize, now, locked);
    LeasedStart(before, selected, deliveries, o, now + o.lease);
    var result: RunResult;
    result, errors := DeliverAll(store, o, before, selected, events, deliveries);
    return Success(result), errors;
  }

  /** The loop over the claimed events; other workers may write before each mark. */
  method DeliverAll(store: Store, o: Options, ghost before: seq<Row>, ghost selected: seq<nat>, events: seq<Event>,
                    deliveries: seq<Delivery>)
    returns (result: RunResult, errors: seq<OutboxError>)
    requires |selected| == |events| <= |deliveries|
    requires forall k :: 0 <= k < |selected| ==> selected[k] < |before| && events[k].row == selected[k]
    requires forall j, k :: 0 <= j < k < |selected| ==> selected[j] < selected[k]
    requires Quiet(o, deliveries) ==> Progress(store.rows, before, selected, events, deliveries, 0, o)
    modifies store
    ensures result.claimed == |events| == result.sent + result.retried + result.deadLetter + |errors|
    ensures Quiet(o, deliveries) ==> errors == [] && result.sent == Accepted(deliveries[..|events|])
    ensures Quiet(o, deliveries) ==> Progress(store.rows, before, selected, events, deliveries, |events|, o)
  {
    hide SettledAs, Progress, StillLeased, OneSettled;
    errors := [];
    result := RunResult(|events|, 0, 0, 0);
    for n := 0 to |events|
      invariant result.claimed == |events|
      invariant n == result.sent + result.retried + result.deadLetter + |errors|
      invariant Quiet(o, deliveries) ==> errors == [] && result.sent == Accepted(deliveries[..n])
      invariant Quiet(o, deliveries) ==> Progress(store.rows, before, selected, events, deliveries, n, o)
    {
      assert deliveries[..n + 1][..n] == deliveries[..n];
      if deliveries[n].table.Some? { store.rows := deliveries[n].table.value; }
      ghost var rows := store.rows;
      var error, status := Settle(store, events[n], deliveries[n], o);
      if Quiet(o, deliveries) {
        NextIsLeased(rows, before, selected, events, deliveries, n, o);
        ProgressStep(rows, store.rows, before, selected, events, deliveries, n, o);
      }
      if error.Some? {
        errors := errors + [error.value];
      } else if deliveries[n].accepted {
        result := result.(sent := result.sent + 1);
      } else if status == DeadLetter {
        result := result.(deadLetter := result.deadLetter + 1);
      } else {
        result := result.(retried := result.retried + 1);
      }
    }
  }

  lemma NextIsLeased(rows: seq<Row>, before: seq<Row>, selected: seq<nat>, events: seq<Event>,
                     deliveries: seq<Delivery>, n: nat, o: Options)
    requires |selected| == |events| <= |deliveries| && n < |events|
    requires forall k :: 0 <= k < |selected| ==> selected[k] < |before| && events[k].row == selected[k]
    requires Progress(rows, before, selected, events, deliveries, n, o)
    ensures events[n].row < |rows| && StillLeased(rows, events[n]) && rows[events[n].row].payload == events[n].payload
  {
  }

  method Settle(store: Store, e: Event, d: Delivery, o: Options) returns (error: Option<OutboxError>, status: Status)
    modifies store
    ensures e.row < |old(store.rows)| && StillLeased(old(store.rows), e) && o.maxAttempts > 0
            && old(store.rows)[e.row].payload == e.payload ==>
              error.None? && OneSettled(old(store.rows), store.rows, e, d, o)
    ensures error.None? && !d.accepted ==> status == StatusAfterFailure(e, o.maxAttempts)
    ensures error.None? ==> StillLeased(old(store.rows), e)
  {
    status := Sent;
    if d.accepted {
      error := store.MarkSent(e);
    } else {
      status, error := store.MarkFailed(e, d.at + o.retryDelay, o.maxAttempts);
    }
  }
}
