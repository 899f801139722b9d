/** Hints handed to a refresh coordinator while its other callers and its writer loop run on. */
module HintProtocol {
  import opened Coordinator
  import C = CoordinatorProtocol
  import H = Hints

  /** The receiver's cache with its accepted submissions, and the coordinator it submits to. */
  datatype State = State(hints: H.State, coordinator: C.State)

  datatype Limits = Limits(environment: string, cacheSize: nat, ttl: int, coordinator: C.Limits)

  datatype Step =
    /** Anything else that happens at the coordinator. */
    | Elsewhere(event: C.Event)
    /** A notification that never asks the coordinator. */
    | Answered(hint: H.Hint, now: int, out: H.Outcome)
    /** One that submits its targets; `between` happens between reading the snapshot and taking the lock. */
    | Submitted(hint: H.Hint, now: int, between: seq<C.Event>, out: H.Outcome)

  function Steps(l: C.Limits, s: C.State, events: seq<C.Event>): (r: C.State)
    requires s.published != []
    ensures r.published != []
  {
    if events == [] then s else C.Next(l, Steps(l, s, events[..|events| - 1]), events[|events| - 1])
  }

  /** What Submit answers the caller that is about to take the lock. */
  function AnswerOf(l: C.Limits, s: C.State, caller: nat): H.SubmitResult
    requires caller < |s.callers| && s.callers[caller].Holding? && s.callers[caller].seen < |s.published|
  {
    var c := s.callers[caller];
    if SubmitLocked(s.core, l.environment, l.capacity, MergeBatch(c.targets), s.published[c.seen]).1 == QueueFull
       then H.Full else H.Accepted
  }

  function Answering(answer: H.SubmitResult): seq<Target> -> H.SubmitResult { _ => answer }

  ghost predicate Follows(l: Limits, s: State, next: State, step: Step) {
    s.coordinator.published != [] &&
    match step
    case Elsewhere(event) =>
      next.hints == s.hints && next.coordinator == C.Next(l.coordinator, s.coordinator, event)
    case Answered(hint, now, out) =>
      && next.coordinator == s.coordinator && next.hints.submissions == s.hints.submissions
      && H.Notified(l.environment, l.cacheSize, l.ttl, s.hints.seen, next.hints.seen, hint, now, Answering(H.Full),
                    out, false)
    case Submitted(hint, now, between, out) =>
      var targets, i := H.TrimHint(hint).targets, |s.coordinator.callers|;
      var locking := Steps(l.coordinator, C.Next(l.coordinator, s.coordinator, C.SubmitReads(targets)), between);
      && i < |locking.callers| && locking.callers[i] == C.Holding(targets, |s.coordinator.published| - 1)
      && |s.coordinator.published| <= |locking.published|
      && H.Notified(l.environment, l.cacheSize, l.ttl, s.hints.seen, next.hints.seen, hint, now,
                    Answering(AnswerOf(l.coordinator, locking, i)), out, true)
      && next.coordinator == C.Next(l.coordinator, locking, C.SubmitLocks(i))
      && next.hints.submissions == if out == H.Acknowledged
                                   then s.hints.submissions + [H.Submission(H.TrimHint(hint).eventId, targets, now)]
                                   else s.hints.submissions
  }

  ghost predicate IsRun(l: Limits, states: seq<State>, steps: seq<Step>) {
    && |states| == |steps| + 1
    && states[0].hints == H.State(map[], []) && C.Initial(l.coordinator, states[0].coordinator)
    && forall n :: 0 <= n < |steps| ==> Follows(l, states[n], states[n + 1], steps[n])
  }

  /** Every target the receiver had accepted is among the targets the coordinator has accepted. */
  predicate Handed(submissions: seq<H.Submission>, accepted: seq<Target>) {
    forall i, k :: 0 <= i < |submissions| && 0 <= k < |submissions[i].targets| ==>
                     TrimTarget(submissions[i].targets[k]) in accepted
  }

  ghost predicate Inv(l: Limits, s: State) {
    C.Inv(l.coordinator, s.coordinator) && H.Backed(s.hints, l.cacheSize, l.ttl)
    && Handed(s.hints.submissions, s.coordinator.accepted)
  }

  lemma AcceptedGrows(l: C.Limits, s: C.State, e: C.Event)
    requires s.published != []
    ensures s.accepted <= C.Next(l, s, e).accepted
  {
  }

  lemma {:induction false} StepsKeepInv(l: C.Limits, s: C.State, events: seq<C.Event>)
    requires C.Inv(l, s)
    ensures C.Inv(l, Steps(l, s, events)) && s.accepted <= Steps(l, s, events).accepted
  {
    hide C.Inv, C.Next;
    Published(l, s);
    if events != [] {
      var before := Steps(l, s, events[..|events| - 1]);
      StepsKeepInv(l, s, events[..|events| - 1]);
      C.StepKeepsInv(l, before, events[|events| - 1]);
      AcceptedGrows(l, before, events[|events| - 1]);
    }
  }

  lemma Published(l: C.Limits, s: C.State)
    requires C.Inv(l, s)
    ensures s.published != []
  {
  }

  /** Locking with an answer other than "full" puts every target of the batch among the accepted ones. */
  lemma LockAccepts(l: C.Limits, s: C.State, i: nat)
    requires s.published != [] && i < |s.callers| && s.callers[i].Holding? && s.callers[i].seen < |s.published|
    ensures AnswerOf(l, s, i) == H.Accepted ==>
              forall k :: 0 <= k < |s.callers[i].targets| ==>
                            TrimTarget(s.callers[i].targets[k]) in C.Next(l, s, C.SubmitLocks(i)).accepted
  {
    hide MergeBatch, SubmitLocked, TrimTarget;
    var targets, next := s.callers[i].targets, C.Next(l, s, C.SubmitLocks(i));
    if AnswerOf(l, s, i) == H.Accepted {
      forall k | 0 <= k < |targets| ensures TrimTarget(targets[k]) in next.accepted {
        assert next.accepted[|s.accepted| + k] == TrimTarget(targets[k]);
      }
    }
  }

  lemma ReadingPublishesNothing(l: C.Limits, s: C.State, targets: seq<Target>)
    requires s.published != []
    ensures C.Next(l, s, C.SubmitReads(targets)).published == s.published
  {
  }

  lemma ReceiverKeepsBacked(l: Limits, s: State, next: State, hint: H.Hint, now: int, answer: H.SubmitResult,
                            out: H.Outcome, submitted: bool)
    requires H.Backed(s.hints, l.cacheSize, l.ttl)
    requires H.Notified(l.environment, l.cacheSize, l.ttl, s.hints.seen, next.hints.seen, hint, now, Answering(answer),
                        out, submitted)
    requires next.hints.submissions == if submitted && out == H.Acknowledged
                                       then s.hints.submissions
                                       + [H.Submission(H.TrimHint(hint).eventId, H.TrimHint(hint).targets, now)]
                                       else s.hints.submissions
    ensures H.Backed(next.hints, l.cacheSize, l.ttl)
    ensures out == H.Acknowledged ==>
              exists i ::
                && 0 <= i < |next.hints.submissions|
                && next.hints.submissions[i].eventId == H.TrimHint(hint).eventId
                && (i == |s.hints.submissions| || next.hints.submissions[i].at + l.ttl > now)
    ensures out == H.Acknowledged && submitted ==> answer == H.Accepted
  {
    hide H.Backed, H.TrimHint, H.GoodHint, H.GoodTargets;
    var c := H.Call(hint, now, Answering(answer));
    assert H.Follows(l.environment, l.cacheSize, l.ttl, s.hints, next.hints, c, out);
    H.StepKeepsBacked(l.environment, l.cacheSize, l.ttl, s.hints, next.hints, c, out);
  }

  lemma SubmittedKeepsInv(l: Limits, s: State, next: State, step: Step)
    requires Inv(l, s) && Follows(l, s, next, step) && step.Submitted?
    ensures Inv(l, next) && s.coordinator.accepted <= next.coordinator.accepted
  {
    hide C.Inv, C.Next, H.Notified, H.Backed, H.TrimHint, AnswerOf;
    var targets, i := H.TrimHint(step.hint).targets, |s.coordinator.callers|;
    var read := C.Next(l.coordinator, s.coordinator, C.SubmitReads(targets));
    ReadingPublishesNothing(l.coordinator, s.coordinator, targets);
    var locking := Steps(l.coordinator, read, step.between);
    C.StepKeepsInv(l.coordinator, s.coordinator, C.SubmitReads(targets));
    AcceptedGrows(l.coordinator, s.coordinator, C.SubmitReads(targets));
    StepsKeepInv(l.coordinator, read, step.between);
    C.StepKeepsInv(l.coordinator, locking, C.SubmitLocks(i));
    AcceptedGrows(l.coordinator, locking, C.SubmitLocks(i));
    LockAccepts(l.coordinator, locking, i);
    ReceiverKeepsBacked(l, s, next, step.hint, step.now, AnswerOf(l.coordinator, locking, i), step.out, true);
    HandedOn(s.hints.submissions, s.coordinator.accepted, next.coordinator.accepted);
  }

  lemma HandedOn(submissions: seq<H.Submission>, accepted: seq<Target>, more: seq<Target>)
    requires Handed(submissions, accepted) && accepted <= more
    ensures Handed(submissions, more)
  {
    hide TrimTarget;
    forall t | t in accepted ensures t in more {
      var k :| 0 <= k < |accepted| && accepted[k] == t;
      assert more[k] == t;
    }
  }

  lemma StepKeepsInv(l: Limits, s: State, next: State, step: Step)
    requires Inv(l, s) && Follows(l, s, next, step)
    ensures Inv(l, next) && s.coordinator.accepted <= next.coordinator.accepted
    ensures s.hints.submissions <= next.hints.submissions
  {
    hide C.Inv, C.Next, H.Notified, H.Backed, H.TrimHint, AnswerOf, Handed;
    match step
    case Elsewhere(event) =>
      C.StepKeepsInv(l.coordinator, s.coordinator, event);
      AcceptedGrows(l.coordinator, s.coordinator, event);
      HandedOn(s.hints.submissions, s.coordinator.accepted, next.coordinator.accepted);
    case Answered(hint, now, out) =>
      ReceiverKeepsBacked(l, s, next, hint, now, H.Full, out, false);
    case Submitted(_, _, _, _) =>
      SubmittedKeepsInv(l, s, next, step);
  }

  lemma {:induction false} RunKeepsInv(l: Limits, states: seq<State>, steps: seq<Step>, n: nat)
    requires IsRun(l, states, steps) && n < |states|
    ensures Inv(l, states[n])
  {
    hide C.Next, H.Notified;
    if n > 0 {
      hide Inv, Follows;
      RunKeepsInv(l, states, steps, n - 1);
      StepKeepsInv(l, states[n - 1], states[n], steps[n - 1]);
    }
  }

  lemma {:induction false} SubmissionsStay(l: Limits, states: seq<State>, steps: seq<Step>, n: nat, m: nat)
    requires IsRun(l, states, steps) && n <= m < |states|
    ensures states[n].hints.submissions <= states[m].hints.submissions
    decreases m
  {
    hide Inv, Follows;
    if n < m {
      SubmissionsStay(l, states, steps, n, m - 1);
      RunKeepsInv(l, states, steps, m - 1);
      StepKeepsInv(l, states[m - 1], states[m], steps[m - 1]);
    }
  }

  /** Every target handed over is reached by a published snapshot or covered by a pending watermark, from then on. */
  ghost predicate TargetsOwned(l: Limits, s: State, submission: H.Submission) {
    forall k :: 0 <= k < |submission.targets| ==>
      C.Owned(l.coordinator, s.coordinator.published, s.coordinator.core.pending, TrimTarget(submission.targets[k]))
  }

  lemma HandedIsOwned(l: Limits, s: State, i: nat)
    requires Inv(l, s) && i < |s.hints.submissions|
    ensures TargetsOwned(l, s, s.hints.submissions[i])
  {
    hide C.Owned, TrimTarget, H.Backed;
    var submission := s.hints.submissions[i];
    forall k | 0 <= k < |submission.targets|
      ensures C.Owned(l.coordinator, s.coordinator.published, s.coordinator.core.pending,
                      TrimTarget(submission.targets[k]))
    {
      assert TrimTarget(submission.targets[k]) in s.coordinator.accepted;
    }
  }

  ghost predicate AcknowledgedAs(step: Step, hint: H.Hint, now: int) {
    (step.Answered? || step.Submitted?) && step.out == H.Acknowledged && step.hint == hint && step.now == now
  }

  /**
   * An acknowledged hint is backed by a submission for its event: its own targets, handed over in this call,
   * or those of an earlier call that has not expired. At every later moment, whatever else the coordinator
   * does, each of these targets is reached by a published snapshot or still covered by a pending watermark.
   */
  lemma AcknowledgedIsOwned(l: Limits, states: seq<State>, steps: seq<Step>, hint: H.Hint, now: int, n: nat,
                            m: nat) returns (i: nat)
    requires IsRun(l, states, steps) && n < m < |states| && AcknowledgedAs(steps[n], hint, now)
    ensures i < |states[m].hints.submissions|
    ensures var submission := states[m].hints.submissions[i];
            && submission.eventId == H.TrimHint(hint).eventId
            && (if i == |states[n].hints.submissions| then submission.targets == H.TrimHint(hint).targets
                else submission.at + l.ttl > now)
            && TargetsOwned(l, states[m], submission)
    ensures |states[m].hints.seen| <= l.cacheSize
  {
    hide C.Inv, C.Next, H.Notified, H.TrimHint, AnswerOf, Steps, Handed, TargetsOwned;
    var s, next := states[n], states[n + 1];
    RunKeepsInv(l, states, steps, n);
    RunKeepsInv(l, states, steps, m);
    SubmissionsStay(l, states, steps, n + 1, m);
    i := AcknowledgedNow(l, s, next, steps[n], hint, now);
    HandedIsOwned(l, states[m], i);
    assert states[m].hints.submissions[i] == next.hints.submissions[i];
  }

  lemma AcknowledgedNow(l: Limits, s: State, next: State, step: Step, hint: H.Hint, now: int) returns (i: nat)
    requires Inv(l, s) && Follows(l, s, next, step) && AcknowledgedAs(step, hint, now)
    ensures i < |next.hints.submissions| && next.hints.submissions[i].eventId == H.TrimHint(hint).eventId
    ensures if i == |s.hints.submissions| then next.hints.submissions[i].targets == H.TrimHint(hint).targets
            else next.hints.submissions[i].at + l.ttl > now
  {
    hide C.Inv, C.Next, H.Notified, H.Backed, H.TrimHint, Handed, AnswerOf;
    if step.Answered? {
      ReceiverKeepsBacked(l, s, next, hint, now, H.Full, step.out, false);
    } else {
      ReadingPublishesNothing(l.coordinator, s.coordinator, H.TrimHint(hint).targets);
      var locking := Steps(l.coordinator, C.Next(l.coordinator, s.coordinator,
                                                 C.SubmitReads(H.TrimHint(hint).targets)), step.between);
      ReceiverKeepsBacked(l, s, next, hint, now, AnswerOf(l.coordinator, locking, |s.coordinator.callers|), step.out,
                          true);
    }
    i :| 0 <= i < |next.hints.submissions| && next.hints.submissions[i].eventId == H.TrimHint(hint).eventId
         && (i == |s.hints.submissions| || next.hints.submissions[i].at + l.ttl > now);
  }
}
