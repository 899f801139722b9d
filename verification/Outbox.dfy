/** The outbox table and its guarded updates. A row is named by its place in sequence order. */
module Outbox {
  import opened Wrappers
  import opened Effects

  datatype Status = Pending | Processing | Sent | DeadLetter

  datatype Row = Row(
    payload: string, status: Status, leaseRevision: nat, attempts: nat, nextAttemptAt: int,
    lockedBy: Option<string>, lockedUntil: Option<int>)

  /** What a claim hands to its worker: the row as it was leased. */
  datatype Event = Event(row: nat, payload: string, leaseRevision: nat, attempts: nat, lockedBy: string,
                         lockedUntil: int)

  datatype OutboxError = InvalidRequest | LeaseLost | NotDeadLetter

  /** A row as the business transactions insert it. */
  function NewRow(payload: string, at: int): Row {
    Row(payload, Pending, 1, 0, at, None, None)
  }

  predicate Due(row: Row, now: int) {
    || (row.status == Pending && row.nextAttemptAt <= now)
    || (row.status == Processing && row.lockedUntil.Some? && row.lockedUntil.value <= now)
  }

  /** The first due rows in sequence order, rows locked by other transactions skipped. */
  function Selected(rows: seq<Row>, limit: int, now: int, locked: set<nat>): (r: seq<nat>)
    ensures forall k :: 0 <= k < |r| ==> r[k] < |rows|
    ensures forall j, k :: 0 <= j < k < |r| ==> r[j] < r[k]
  {
    if rows == [] then []
    else
      var n := |rows| - 1;
      var before := Selected(rows[..n], limit, now, locked);
      if |before| < limit && Due(rows[n], now) && n !in locked then before + [n] else before
  }

  function Lease(row: Row, worker: string, until: int): Row {
    row.(status := Processing, leaseRevision := row.leaseRevision + 1, attempts := row.attempts + 1,
         lockedBy := Some(worker), lockedUntil := Some(until))
  }

  function LeaseAll(rows: seq<Row>, selected: seq<nat>, worker: string, until: int): (r: seq<Row>)
    ensures |r| == |rows|
  {
    seq(|rows|, i requires 0 <= i < |rows| => if i in selected then Lease(rows[i], worker, until) else rows[i])
  }

  function EventsOf(rows: seq<Row>, selected: seq<nat>, worker: string, until: int): (r: seq<Event>)
    requires forall k :: 0 <= k < |selected| ==> selected[k] < |rows|
    ensures |r| == |selected|
  {
    seq(|selected|, k requires 0 <= k < |selected| =>
      var row := rows[selected[k]];
      Event(selected[k], row.payload, row.leaseRevision + 1, row.attempts + 1, worker, until))
  }

  predicate ValidClaim(worker: string, limit: int, lease: int, now: int) {
    worker != "" && limit > 0 && lease > 0 && now != ZERO_TIME
  }

  /** The guard of both marks: the row is still leased, by this worker, under this very claim. */
  predicate StillLeased(rows: seq<Row>, e: Event) {
    && e.row < |rows| && rows[e.row].status == Processing
    && rows[e.row].leaseRevision == e.leaseRevision && rows[e.row].lockedBy == Some(e.lockedBy)
  }

  function SentRow(row: Row): Row {
    row.(status := Sent, leaseRevision := row.leaseRevision + 1, lockedBy := None, lockedUntil := None)
  }

  function StatusAfterFailure(e: Event, maxAttempts: int): Status {
    if e.attempts >= maxAttempts then DeadLetter else Pending
  }

  function FailedRow(row: Row, status: Status, nextAttemptAt: int): Row {
    row.(status := status, leaseRevision := row.leaseRevision + 1, nextAttemptAt := nextAttemptAt,
         lockedBy := None, lockedUntil := None)
  }

  function ReplayedRow(row: Row, now: int): Row {
    row.(status := Pending, leaseRevision := row.leaseRevision + 1, attempts := 0, nextAttemptAt := now,
         lockedBy := None, lockedUntil := None)
  }

  predicate ValidReplay(expected: nat, reason: string, actor: string, now: int) {
    expected != 0 && reason != "" && actor != "" && now != ZERO_TIME
  }

  /** A claim takes the oldest due rows: whatever it leaves although due and free comes after a full batch. */
  lemma {:induction false} SelectedAreOldest(rows: seq<Row>, limit: int, now: int, locked: set<nat>)
    requires limit > 0
    ensures var selected := Selected(rows, limit, now, locked);
            && |selected| <= limit
            && (forall k :: 0 <= k < |selected| ==> Due(rows[selected[k]], now) && selected[k] !in locked)
            && (forall i :: 0 <= i < |rows| && Due(rows[i], now) && i !in locked && i !in selected ==>
                  |selected| == limit && forall k :: 0 <= k < |selected| ==> selected[k] < i)
  {
    if rows != [] {
      var n := |rows| - 1;
      SelectedAreOldest(rows[..n], limit, now, locked);
      assert forall i :: 0 <= i < n ==> rows[..n][i] == rows[i];
    }
  }

  /** The table: every method is one transaction. */
  class Store {
    var rows: seq<Row>

    constructor (initial: seq<Row>)
      ensures rows == initial
    {
      rows := initial;
    }

    method Claim(worker: string, limit: int, now: int, lease: int, locked: set<nat>)
      returns (r: Result<seq<Event>, OutboxError>)
      modifies this
      ensures if !ValidClaim(worker, limit, lease, now) then r == Failure(InvalidRequest) && rows == old(rows)
              else var selected := Selected(old(rows), limit, now, locked);
                   && r == Success(EventsOf(old(rows), selected, worker, now + lease))
                   && rows == LeaseAll(old(rows), selected, worker, now + lease)
    {
      hide Selected, Due;
      if worker == "" || limit <= 0 || lease <= 0 || now == ZERO_TIME { return Failure(InvalidRequest); }
      var until, selected := now + lease, Selected(rows, limit, now, locked);
      var claimed: seq<Event> := [];
      for n := 0 to |selected|
        invariant |rows| == |old(rows)| && |claimed| == n
        invariant forall i :: 0 <= i < |rows| ==>
                    rows[i] == if i in selected[..n] then Lease(old(rows)[i], worker, until) else old(rows)[i]
        invariant forall k :: 0 <= k < n ==> claimed[k] == EventsOf(old(rows), selected, worker, until)[k]
      {
        var i := selected[n];
        assert selected[..n + 1] == selected[..n] + [i];
        assert i !in selected[..n];
        var row := rows[i];
        rows := rows[i := Lease(row, worker, until)];
        claimed := claimed + [Event(i, row.payload, row.leaseRevision + 1, row.attempts + 1, worker, until)];
      }
      assert selected[..|selected|] == selected;
      assert claimed == EventsOf(old(rows), selected, worker, until);
      return Success(claimed);
    }

    method MarkSent(e: Event) returns (r: Option<OutboxError>)
      modifies this
      ensures if StillLeased(old(rows), e) then r == None && rows == old(rows)[e.row := SentRow(old(rows)[e.row])]
              else r == Some(LeaseLost) && rows == old(rows)
    {
      if !StillLeased(rows, e) { return Some(LeaseLost); }
      rows := rows[e.row := SentRow(rows[e.row])];
      return None;
    }

    method MarkFailed(e: Event, nextAttemptAt: int, maxAttempts: int) returns (status: Status, r: Option<OutboxError>)
      modifies this
      ensures if maxAttempts <= 0 then r == Some(InvalidRequest) && rows == old(rows)
              else status == StatusAfterFailure(e, maxAttempts)
                   && if StillLeased(old(rows), e)
                      then r == None && rows == old(rows)[e.row := FailedRow(old(rows)[e.row], status, nextAttemptAt)]
                      else r == Some(LeaseLost) && rows == old(rows)
    {
      status := Pending;
      if maxAttempts <= 0 { return status, Some(InvalidRequest); }
      if e.attempts >= maxAttempts { status := DeadLetter; }
      if !StillLeased(rows, e) { return status, Some(LeaseLost); }
      rows := rows[e.row := FailedRow(rows[e.row], status, nextAttemptAt)];
      return status, None;
    }

    method Replay(i: nat, expected: nat, reason: string, actor: string, now: int) returns (r: Option<OutboxError>)
      modifies this
      ensures if !ValidReplay(expected, reason, actor, now) then r == Some(InvalidRequest) && rows == old(rows)
              else if i >= |old(rows)|
                      || old(rows)[i].leaseRevision != expected then r == Some(LeaseLost) && rows == old(rows)
              else if old(rows)[i].status != DeadLetter then r == Some(NotDeadLetter) && rows == old(rows)
              else r == None && rows == old(rows)[i := ReplayedRow(old(rows)[i], now)]
    {
      if expected == 0 || reason == "" || actor == "" || now == ZERO_TIME { return Some(InvalidRequest); }
      if i >= |rows| || rows[i].leaseRevision != expected { return Some(LeaseLost); }
      if rows[i].status != DeadLetter { return Some(NotDeadLetter); }
      rows := rows[i := ReplayedRow(rows[i], now)];
      return None;
    }
  }
}
