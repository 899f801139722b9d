/** Refresh hints: deduplicated by event id for a while, and acknowledged only when their targets are owned. */
module Hints {
  import opened Coordinator
  import Text

  datatype Hint = Hint(eventId: string, environment: string, targets: seq<Target>)

  datatype Outcome = Acknowledged | BadHint | WrongEnvironment | HintQueueFull | SubmitFailed

  datatype SubmitResult = Accepted | Full | Refused

  function TrimHint(h: Hint): Hint {
    Hint(Text.Trim(h.eventId), Text.Trim(h.environment),
         seq(|h.targets|, i requires 0 <= i < |h.targets| => TrimTarget(h.targets[i])))
  }

  predicate GoodHint(h: Hint) {
    && h.eventId != "" && h.environment != "" && h.targets != []
  }

  predicate GoodTargets(targets: seq<Target>) {
    forall i :: 0 <= i < |targets| ==> targets[i].collection != "" && targets[i].minRevision != 0
  }

  function Prune(seen: map<string, int>, now: int): map<string, int> {
    map id | id in seen && seen[id] > now :: seen[id]
  }

  predicate Earliest(seen: map<string, int>, id: string) {
    id in seen && forall other :: other in seen ==> seen[id] <= seen[other]
  }

  /** The event joins the cache; a full cache first gives up an entry of earliest expiry, and no other. */
  predicate Remembers(seen: map<string, int>, after: map<string, int>, id: string, expiry: int, cacheSize: nat) {
    if |seen| < cacheSize then after == seen[id := expiry]
    else exists gone :: gone in seen && Earliest(seen, gone) && after == (seen - {gone})[id := expiry]
  }

  class HintReceiver {
    const environment: string
    const cacheSize: nat
    const ttl: int
    var seen: map<string, int>

    predicate Valid()
      reads this
    {
      cacheSize > 0 && ttl > 0 && |seen| <= cacheSize && "" !in seen
    }

    constructor (environment: string, cacheSize: nat, ttl: int)
      requires cacheSize > 0 && ttl > 0
      ensures Valid() && seen == map[] && this.environment == environment && this.cacheSize == cacheSize
      ensures this.ttl == ttl
    {
      this.environment, this.cacheSize, this.ttl, seen := environment, cacheSize, ttl, map[];
    }

    method PruneSeen(now: int)
      requires Valid()
      modifies this`seen
      ensures Valid() && seen == Prune(old(seen), now)
    {
      var left := seen.Keys;
      ghost var was := seen;
      var kept := seen;
      while left != {}
        invariant left <= was.Keys
        invariant kept == map id | id in was && (id in left || was[id] > now) :: was[id]
        decreases left
      {
        var id :| id in left;
        if kept[id] <= now { kept := kept - {id}; }
        left := left - {id};
      }
      FewerEntries(kept, was);
      seen := kept;
    }

    method Remember(id: string, now: int)
      requires Valid() && id !in seen && id != ""
      modifies this`seen
      ensures Valid() && Remembers(old(seen), seen, id, now + ttl, cacheSize)
    {
      ghost var was := seen;
      if |seen| >= cacheSize {
        var oldest := FindOldest(seen);
        FewerEntries(seen - {oldest}, seen);
        seen := seen - {oldest};
        RemovedOne(was, oldest);
      }
      AddedOne(seen, id, now + ttl);
      seen := seen[id := now + ttl];
    }

    /** `submit` is what the coordinator answers for a batch; it is asked only when the event is new. */
    method Notify(hint: Hint, now: int, submit: seq<Target> -> SubmitResult) returns (out: Outcome, submitted: bool)
      requires Valid()
      modifies this
      ensures Valid()
      ensures Notified(environment, cacheSize, ttl, old(seen), seen, hint, now, submit, out, submitted)
    {
      var h := TrimHint(hint);
      submitted := false;
      if h.eventId == "" || h.environment == "" || |h.targets| == 0 { return BadHint, false; }
      if h.environment != environment { return WrongEnvironment, false; }
      for n := 0 to |h.targets|
        invariant GoodTargets(h.targets[..n])
      {
        if h.targets[n].collection == "" || h.targets[n].minRevision == 0 {
          assert !GoodTargets(h.targets);
          return BadHint, false;
        }
      }
      assert h.targets[..|h.targets|] == h.targets;
      PruneSeen(now);
      if h.eventId in seen && seen[h.eventId] > now { return Acknowledged, false; }
      var result := submit(h.targets);
      if result == Full { return HintQueueFull, true; }
      if result == Refused { return SubmitFailed, true; }
      Remember(h.eventId, now);
      return Acknowledged, true;
    }
  }

  /** One Notify: which checks come first, when the coordinator is asked, and what the cache becomes. */
  predicate Notified(environment: string, cacheSize: nat, ttl: int, seen: map<string, int>, after: map<string, int>,
                     hint: Hint, now: int, submit: seq<Target> -> SubmitResult, out: Outcome, submitted: bool)
  {
    var h := TrimHint(hint);
    if !GoodHint(h) then out == BadHint && !submitted && after == seen
    else if h.environment != environment then out == WrongEnvironment && !submitted && after == seen
    else if !GoodTargets(h.targets) then out == BadHint && !submitted && after == seen
    else
      var pruned := Prune(seen, now);
      if h.eventId in pruned then out == Acknowledged && !submitted && after == pruned
      else
        submitted && match submit(h.targets)
        case Full => out == HintQueueFull && after == pruned
        case Refused => out == SubmitFailed && after == pruned
        case Accepted => out == Acknowledged && Remembers(pruned, after, h.eventId, now + ttl, cacheSize)
  }

  lemma FewerEntries(a: map<string, int>, b: map<string, int>)
    requires a.Keys <= b.Keys
    ensures |a| <= |b|
  {
    assert b.Keys == a.Keys + (b.Keys - a.Keys);
    assert |a| == |a.Keys| && |b| == |b.Keys|;
  }

  lemma RemovedOne(seen: map<string, int>, id: string)
    requires id in seen
    ensures |seen - {id}| == |seen| - 1
  {
    assert (seen - {id}).Keys == seen.Keys - {id};
    assert |seen - {id}| == |(seen - {id}).Keys| && |seen| == |seen.Keys|;
  }

  lemma AddedOne(seen: map<string, int>, id: string, expiry: int)
    requires id !in seen
    ensures |seen[id := expiry]| == |seen| + 1
  {
    assert seen[id := expiry].Keys == seen.Keys + {id};
    assert |seen[id := expiry]| == |seen[id := expiry].Keys| && |seen| == |seen.Keys|;
  }

  /** The scan for the entry to evict; the empty id stands for "none found yet". */
  method FindOldest(seen: map<string, int>) returns (oldestId: string)
    requires seen != map[] && "" !in seen
    ensures Earliest(seen, oldestId)
  {
    oldestId := "";
    var oldest := 0;
    var left := seen.Keys;
    while left != {}
      invariant left <= seen.Keys
      invariant oldestId == "" ==> left == seen.Keys
      invariant oldestId != "" ==> oldestId in seen && seen[oldestId] == oldest
      invariant oldestId != "" ==> forall id :: id in seen && id !in left ==> oldest <= seen[id]
      decreases left
    {
      var id :| id in left;
      if oldestId == "" || seen[id] < oldest { oldestId, oldest := id, seen[id]; }
      left := left - {id};
    }
  }

  // ----- any sequence of notifications -----

  datatype Call = Call(hint: Hint, now: int, submit: seq<Target> -> SubmitResult)

  /** A batch the coordinator accepted, for which event, and when. */
  datatype Submission = Submission(eventId: string, targets: seq<Target>, at: int)

  datatype State = State(seen: map<string, int>, submissions: seq<Submission>)

  ghost predicate Follows(environment: string, cacheSize: nat, ttl: int, s: State, next: State, c: Call, out: Outcome) {
    exists submitted :: Notified(environment, cacheSize, ttl, s.seen, next.seen, c.hint, c.now, c.submit, out,
                                 submitted)
      && next.submissions == if submitted && out == Acknowledged
                             then s.submissions
                             + [Submission(TrimHint(c.hint).eventId, TrimHint(c.hint).targets, c.now)]
                             else s.submissions
  }

  /** The states of a run and the outcome of each call. */
  ghost predicate IsRun(environment: string, cacheSize: nat, ttl: int, states: seq<State>, calls: seq<Call>,
                        outs: seq<Outcome>) {
    && |states| == |calls| + 1 && |outs| == |calls| && states[0] == State(map[], [])
    && forall n :: 0 <= n < |calls| ==>
         Follows(environment, cacheSize, ttl, states[n], states[n + 1], calls[n], outs[n])
  }

  predicate SubmittedFor(submissions: seq<Submission>, eventId: string, expiry: int, ttl: int) {
    exists i :: 0 <= i < |submissions| && submissions[i].eventId == eventId && submissions[i].at + ttl == expiry
  }

  predicate Backed(s: State, cacheSize: nat, ttl: int) {
    |s.seen| <= cacheSize && forall id :: id in s.seen ==> SubmittedFor(s.submissions, id, s.seen[id], ttl)
  }

  lemma MoreSubmissions(submissions: seq<Submission>, last: Submission, id: string, expiry: int, ttl: int)
    requires SubmittedFor(submissions, id, expiry, ttl)
    ensures SubmittedFor(submissions + [last], id, expiry, ttl)
  {
    var i :| 0 <= i < |submissions| && submissions[i].eventId == id && submissions[i].at + ttl == expiry;
    assert (submissions + [last])[i] == submissions[i];
  }

  lemma RememberKeepsSize(seen: map<string, int>, after: map<string, int>, id: string, expiry: int, cacheSize: nat)
    requires Remembers(seen, after, id, expiry, cacheSize) && id !in seen && |seen| <= cacheSize
    ensures |after| <= cacheSize
    ensures forall k :: k in after && k != id ==> k in seen && after[k] == seen[k]
    ensures id in after && after[id] == expiry
  {
    AddedOne(seen, id, expiry);
    if |seen| >= cacheSize {
      var gone :| gone in seen && Earliest(seen, gone) && after == (seen - {gone})[id := expiry];
      RemovedOne(seen, gone);
      AddedOne(seen - {gone}, id, expiry);
    }
  }

  /**
   * An unexpired event is forgotten only to make room in a full cache, alone, and none that is kept expires before it.
   */
  lemma OnlyEarliestIsForgotten(environment: string, cacheSize: nat, ttl: int, s: State, next: State, c: Call,
                                out: Outcome, id: string)
    requires Follows(environment, cacheSize, ttl, s, next, c, out)
    requires id in s.seen && s.seen[id] > c.now && id !in next.seen
    ensures out == Acknowledged && |Prune(s.seen, c.now)| >= cacheSize
    ensures forall k :: k in s.seen && s.seen[k] > c.now && k != id ==>
              s.seen[id] <= s.seen[k] && k in next.seen && (k == TrimHint(c.hint).eventId || next.seen[k] == s.seen[k])
  {
    hide TrimHint, GoodHint, GoodTargets;
    var pruned := Prune(s.seen, c.now);
    assert id in pruned;
    forall k | k in s.seen && s.seen[k] > c.now ensures k in pruned && pruned[k] == s.seen[k] {}
  }

  lemma StepKeepsBacked(environment: string, cacheSize: nat, ttl: int, s: State, next: State, c: Call, out: Outcome)
    requires Backed(s, cacheSize, ttl) && Follows(environment, cacheSize, ttl, s, next, c, out)
    ensures Backed(next, cacheSize, ttl)
    ensures out == Acknowledged ==>
              exists i :: 0 <= i < |next.submissions| && next.submissions[i].eventId == TrimHint(c.hint).eventId
                          && (i == |s.submissions| || next.submissions[i].at + ttl > c.now)
    ensures out == Acknowledged && |next.submissions| > |s.submissions| ==>
              c.submit(TrimHint(c.hint).targets) == Accepted
              && next.submissions[|s.submissions|]
                 == Submission(TrimHint(c.hint).eventId, TrimHint(c.hint).targets, c.now)
  {
    hide TrimHint, SubmittedFor, GoodHint, GoodTargets;
    var submitted :| Notified(environment, cacheSize, ttl, s.seen, next.seen, c.hint, c.now, c.submit, out, submitted)
      && next.submissions == if submitted && out == Acknowledged
                             then s.submissions
                             + [Submission(TrimHint(c.hint).eventId, TrimHint(c.hint).targets, c.now)]
                             else s.submissions;
    var h, pruned := TrimHint(c.hint), Prune(s.seen, c.now);
    FewerEntries(pruned, s.seen);
    if out == Acknowledged && submitted {
      RememberKeepsSize(pruned, next.seen, h.eventId, c.now + ttl, cacheSize);
      var last := Submission(h.eventId, h.targets, c.now);
      forall id | id in next.seen ensures SubmittedFor(next.submissions, id, next.seen[id], ttl) {
        if id == h.eventId { JustSubmitted(s.submissions, last, ttl); }
           else { MoreSubmissions(s.submissions, last, id, next.seen[id], ttl); }
      }
      assert next.submissions[|s.submissions|] == last;
    } else if out == Acknowledged {
      UnexpiredSubmission(s.submissions, h.eventId, s.seen[h.eventId], ttl, c.now);
    }
  }

  lemma JustSubmitted(submissions: seq<Submission>, last: Submission, ttl: int)
    ensures SubmittedFor(submissions + [last], last.eventId, last.at + ttl, ttl)
  {
    assert (submissions + [last])[|submissions|] == last;
  }

  lemma UnexpiredSubmission(submissions: seq<Submission>, id: string, expiry: int, ttl: int, now: int)
    requires SubmittedFor(submissions, id, expiry, ttl) && expiry > now
    ensures exists i :: 0 <= i < |submissions| && submissions[i].eventId == id && submissions[i].at + ttl > now
  {
  }

  lemma {:induction false} RunIsBacked(environment: string, cacheSize: nat, ttl: int, states: seq<State>,
                                       calls: seq<Call>, outs: seq<Outcome>, n: nat)
    requires IsRun(environment, cacheSize, ttl, states, calls, outs) && n < |states|
    ensures Backed(states[n], cacheSize, ttl)
  {
    if n > 0 {
      RunIsBacked(environment, cacheSize, ttl, states, calls, outs, n - 1);
      StepKeepsBacked(environment, cacheSize, ttl, states[n - 1], states[n], calls[n - 1], outs[n - 1]);
    }
  }

  /**
   * In any run of notifications, with any clock: an acknowledged hint had its targets accepted by the coordinator in
   * this call, or an earlier call with the same event id did and is not yet expired; and the cache keeps its limit.
   */
  lemma AcknowledgedWasSubmitted(environment: string, cacheSize: nat, ttl: int, states: seq<State>, calls: seq<Call>,
                                 outs: seq<Outcome>, n: nat)
    returns (i: nat)
    requires IsRun(environment, cacheSize, ttl, states, calls, outs) && n < |calls| && outs[n] == Acknowledged
    ensures |states[n + 1].seen| <= cacheSize
    ensures i < |states[n + 1].submissions| && states[n + 1].submissions[i].eventId == TrimHint(calls[n].hint).eventId
    ensures if i == |states[n].submissions|
            then calls[n].submit(TrimHint(calls[n].hint).targets) == Accepted
            else states[n + 1].submissions[i].at + ttl > calls[n].now
  {
    hide TrimHint, Follows, Notified;
    RunIsBacked(environment, cacheSize, ttl, states, calls, outs, n);
    StepKeepsBacked(environment, cacheSize, ttl, states[n], states[n + 1], calls[n], outs[n]);
    i :| 0 <= i < |states[n + 1].submissions| && states[n + 1].submissions[i].eventId == TrimHint(calls[n].hint).eventId
         && (i == |states[n].submissions| || states[n + 1].submissions[i].at + ttl > calls[n].now);
  }
}
