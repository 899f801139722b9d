/** Acting on an order under a request id: concurrent calls, retried transactions, stored results. */
module Idempotency {
  import opened Wrappers
  import opened Template
  import opened OrderState
  import opened Lifecycle
  import opened World
  import opened ReleaseRun
  import opened Comparison
  import Catalog
  import Effects
  import Overlay
  import Text

  /** The canonical request: everything but the request id, the roles in any order. The digest is taken as injective. */
  datatype ActionDigest = ActionDigest(
    orderId: string, expectedRevision: nat, expectedStep: string, action: Action, actor: string,
    roles: multiset<string>, comment: string)

  function DigestOf(c: Command): ActionDigest {
    ActionDigest(c.orderId, c.expectedRevision, c.expectedStep, c.action, c.actor, multiset(c.roles), c.comment)
  }

  datatype StoredResult = StoredResult(digest: ActionDigest, view: Order)

  /** One order, the configuration it changes, the global revision counter, and the stored results of its requests. */
  datatype Database = Database(system: System, counter: nat, results: map<string, StoredResult>)

  /** What the body of one transaction did: the new database, the projection, and the error it will report later. */
  datatype Worked = Worked(db: Database, view: Order, mismatch: bool, committed: bool)

  predicate ValidCommand(c: Command) {
    !Text.Blank(c.orderId) && !Text.Blank(c.requestId) && !Text.Blank(c.actor) && c.expectedStep != ""
  }

  predicate Allocates(o: Order, action: Action)
    requires o.currentStep < |o.steps|
  {
    action.RollbackAction?
    || (action.ExecuteAction? && o.steps[o.currentStep].definition.Type() in {BaseApply, OverlayApply, PercentRollout})
  }

  /**
   * The transaction's callback. `stale` is the mismatch that an earlier, rolled back attempt of the same call
   * has left behind: it is never cleared, and it alone keeps the result from being stored.
   */
  ghost function Work(db: Database, c: Command, stale: bool, now: int): Result<Worked, Error>
    requires Shape(db.system.order)
  {
    var o := db.system.order;
    if c.orderId != o.id then Failure(Internal)
    else if c.requestId in db.results then
      if db.results[c.requestId].digest != DigestOf(c) then Failure(KeyReused)
      else Success(Worked(db, db.results[c.requestId].view, stale, false))
    else if o.revision != c.expectedRevision then Failure(Aborted)
    else if o.steps[o.currentStep].definition.code != c.expectedStep then Failure(Aborted)
    else
      var out :- Dispatch(db.system, c, now, db.counter + 1);
      var mismatch := stale || !out.matched;
      var counter := if Allocates(o, c.action) then db.counter + 1 else db.counter;
      var results := if mismatch then db.results
                     else db.results[c.requestId := StoredResult(DigestOf(c), out.system.order)];
      Success(Worked(Database(out.system, counter, results), out.system.order, mismatch, true))
  }

  /** What the storage does to an attempt: commit it, fail before or after the callback, or lose the commit's reply. */
  datatype Fault = NoFault | FailBefore(retryable: bool) | FailAfter(retryable: bool) | ReplyLost

  datatype Reply = Reply(view: Option<Order>, error: Option<Error>)

  datatype Call = Call(command: Command, attempts: nat, stale: bool, reply: Option<Reply>)

  /** A change of the order that reached the database, and whether its result was stored beside it. */
  datatype Commit = Commit(requestId: string, digest: ActionDigest, before: Order, after: Order, stored: bool)

  datatype State = State(db: Database, calls: seq<Call>, history: seq<Commit>)

  datatype Event =
    | Begin(command: Command)
    | Attempt(call: nat, now: int, fault: Fault, cancelled: bool)
    /** Another order's transaction: any other configuration and counter. */
    | Foreign(world: World, counter: nat)

  const MAX_ATTEMPTS := 3

  /** The outcome of one attempt as the retry loop sees it. */
  datatype Attempted = Attempted(db: Database, stale: bool, view: Option<Order>, error: Option<Error>, retryable: bool,
                                 changed: bool)

  ghost function TryOnce(db: Database, c: Command, stale: bool, now: int, fault: Fault): Attempted
    requires Shape(db.system.order)
  {
    if fault.FailBefore? then Attempted(db, stale, None, Some(Internal), fault.retryable, false)
    else match Work(db, c, stale, now)
      case Failure(error) => Attempted(db, stale, None, Some(error), false, false)
      case Success(worked) =>
        match fault
        case FailAfter(retryable) => Attempted(db, worked.mismatch, None, Some(Internal), retryable, false)
        case ReplyLost => Attempted(worked.db, worked.mismatch, None, Some(Internal), false, worked.committed)
        case _ => Attempted(worked.db, worked.mismatch, Some(worked.view), None, false, worked.committed)
  }

  /** The reply of a call whose transaction ended: the view goes out beside a mismatch error. */
  function ReplyOf(t: Attempted): Reply {
    if t.error.Some? then Reply(None, t.error)
    else Reply(t.view, if t.stale then Some(FailedPrecondition) else None)
  }

  function AfterAttempt(call: Call, t: Attempted, cancelled: bool): Call {
    var attempts := call.attempts + 1;
    if t.error.Some? && t.retryable && attempts < MAX_ATTEMPTS
    then if cancelled then call.(attempts := attempts, stale := t.stale, reply := Some(Reply(None, Some(Internal))))
         else call.(attempts := attempts, stale := t.stale)
    else call.(attempts := attempts, stale := t.stale, reply := Some(ReplyOf(t)))
  }

  function CommitOf(db: Database, c: Command, t: Attempted): Commit {
    Commit(c.requestId, DigestOf(c), db.system.order, t.db.system.order, c.requestId in t.db.results)
  }

  ghost function Next(s: State, e: Event): State
    requires Shape(s.db.system.order)
  {
    match e
    case Begin(c) => if ValidCommand(c) then s.(calls := s.calls + [Call(c, 0, false, None)]) else s
    case Foreign(world, counter) => s.(db := s.db.(system := s.db.system.(world := world), counter := counter))
    case Attempt(i, now, fault, cancelled) =>
      if i >= |s.calls| || s.calls[i].reply.Some? then s
      else
        var call := s.calls[i];
        var t := TryOnce(s.db, call.command, call.stale, now, fault);
        State(t.db, s.calls[i := AfterAttempt(call, t, cancelled)],
              if t.changed then s.history + [CommitOf(s.db, call.command, t)] else s.history)
  }

  // ----- one attempt -----

  /** A changing attempt is one success of the order's life cycle; any other leaves the order and the results alone. */
  lemma AttemptChanges(db: Database, c: Command, stale: bool, now: int, fault: Fault)
    requires Shape(db.system.order)
    ensures var t := TryOnce(db, c, stale, now, fault);
            && Shape(t.db.system.order)
            && (!t.changed ==> t.db == db)
            && (t.changed ==>
                 && c.requestId !in db.results
                 && db.system.order.revision == c.expectedRevision
                 && t.db.system.order.revision == db.system.order.revision + 1
                 && t.db.results == (if t.stale then db.results
                                     else db.results[c.requestId := StoredResult(DigestOf(c), t.db.system.order)]))
            && (t.view.Some? && !t.changed ==>
                 c.requestId in db.results && db.results[c.requestId] == StoredResult(DigestOf(c), t.view.value))
            && (t.view.Some? && t.changed ==> t.view.value == t.db.system.order)
            && (t.view.Some? <==> t.error.None?)
  {
    hide Dispatch, Shape;
    if !fault.FailBefore? && Work(db, c, stale, now).Success? && Work(db, c, stale, now).value.committed {
      DispatchIsOneOp(db.system, c, now, db.counter + 1);
    }
  }

  /** The order is waiting at a comparison at the revision this command expects, or has moved on. */
  predicate Compared(o: Order, c: Command)
    requires o.currentStep < |o.steps|
  {
    && c.action.ExecuteAction? && o.revision >= c.expectedRevision
    && (o.revision == c.expectedRevision ==> o.steps[o.currentStep].definition.Type() == Compare)
  }

  /** Only a comparison can leave a mismatch behind. */
  lemma OnlyComparisonsMismatch(db: Database, c: Command, stale: bool, now: int, fault: Fault)
    requires Shape(db.system.order) && (stale ==> Compared(db.system.order, c))
    ensures var t := TryOnce(db, c, stale, now, fault);
            && (t.stale ==> Compared(db.system.order, c))
            && (t.stale ==> Shape(t.db.system.order) && Compared(t.db.system.order, c))
            && (t.changed && t.stale ==> ComparisonCommit(CommitOf(db, c, t)))
  {
    AttemptChanges(db, c, stale, now, fault);
    hide TryOnce, Shape;
    if TryOnce(db, c, stale, now, fault).stale && !stale { MismatchIsComparison(db, c, now, fault); }
  }

  lemma MismatchIsComparison(db: Database, c: Command, now: int, fault: Fault)
    requires Shape(db.system.order) && TryOnce(db, c, false, now, fault).stale
    ensures Compared(db.system.order, c)
  {
  }

  // ----- every run -----

  /**
   * One line of commits: each at the revision its request expected, each adding one, the last leaving the order as it
   * is.
   */
  predicate OneLine(o: Order, history: seq<Commit>, start: Order) {
    && o.revision == start.revision + |history|
    && (forall i :: 0 <= i < |history| ==>
         && history[i].before.revision == start.revision + i
         && history[i].digest.expectedRevision == start.revision + i
         && history[i].before == OrderAfter(history[..i], start))
    && o == OrderAfter(history, start)
  }

  function OrderAfter(history: seq<Commit>, start: Order): Order {
    if history == [] then start else history[|history| - 1].after
  }

  predicate StoredBy(commit: Commit, requestId: string, stored: StoredResult) {
    commit.requestId == requestId && commit.stored && stored == StoredResult(commit.digest, commit.after)
  }

  predicate Backed(history: seq<Commit>, requestId: string, stored: StoredResult) {
    exists i :: 0 <= i < |history| && StoredBy(history[i], requestId, stored)
  }

  /** Nothing is committed under an id once it has a result. */
  predicate StoredLast(history: seq<Commit>) {
    forall i, j :: 0 <= i < j < |history| && history[i].requestId == history[j].requestId ==> !history[i].stored
  }

  /** The results are exactly those of the storing commits. */
  predicate ResultsTell(results: map<string, StoredResult>, history: seq<Commit>) {
    && (forall r :: r in results ==> Backed(history, r, results[r]))
    && (forall i :: 0 <= i < |history| && history[i].stored ==> history[i].requestId in results)
    && StoredLast(history)
  }

  predicate ComparisonCommit(commit: Commit) {
    && commit.before.currentStep < |commit.before.steps|
    && commit.before.steps[commit.before.currentStep].definition.Type() == Compare
    && commit.digest.action.ExecuteAction?
  }

  predicate CallTells(s: State, call: Call)
    requires Shape(s.db.system.order)
  {
    && (call.stale ==> Compared(s.db.system.order, call.command))
    && (call.reply.Some? && call.reply.value.view.Some? && call.reply.value.error.None? ==>
         && call.command.requestId in s.db.results
         && s.db.results[call.command.requestId] == StoredResult(DigestOf(call.command), call.reply.value.view.value))
  }

  ghost predicate Inv(s: State, start: Order) {
    && Shape(s.db.system.order) && OneLine(s.db.system.order, s.history, start) && ResultsTell(s.db.results, s.history)
    && (forall i :: 0 <= i < |s.history| && !s.history[i].stored ==> ComparisonCommit(s.history[i]))
    && (forall k :: 0 <= k < |s.calls| ==> CallTells(s, s.calls[k]))
  }

  lemma StillBacked(history: seq<Commit>, last: Commit, requestId: string, stored: StoredResult)
    requires Backed(history, requestId, stored)
    ensures Backed(history + [last], requestId, stored)
  {
    var i :| 0 <= i < |history| && StoredBy(history[i], requestId, stored);
    assert StoredBy((history + [last])[i], requestId, stored);
  }

  lemma ResultsStep(results: map<string, StoredResult>, history: seq<Commit>, last: Commit)
    requires ResultsTell(results, history) && last.requestId !in results
    ensures ResultsTell(if last.stored then results[last.requestId := StoredResult(last.digest, last.after)]
                        else results,
                        history + [last])
  {
    hide Backed, StoredBy;
    forall r | r in results
      ensures Backed(history + [last], r, results[r])
    {
      StillBacked(history, last, r, results[r]);
    }
    NewlyBacked(history, last);
  }

  lemma NewlyBacked(history: seq<Commit>, last: Commit)
    ensures last.stored ==> Backed(history + [last], last.requestId, StoredResult(last.digest, last.after))
  {
    assert (history + [last])[|history|] == last;
  }

  lemma LineStep(o: Order, history: seq<Commit>, start: Order, last: Commit)
    requires OneLine(o, history, start) && last.before == o && last.digest.expectedRevision == o.revision
    requires last.after.revision == o.revision + 1
    ensures OneLine(last.after, history + [last], start)
  {
    forall i | 0 <= i <= |history| ensures (history + [last])[..i] == history[..i] {}
    assert history[..|history|] == history;
  }

  lemma ForeignKeepsInv(s: State, start: Order, e: Event)
    requires Inv(s, start) && !e.Attempt?
    ensures Inv(Next(s, e), start)
  {
    hide Shape, ResultsTell, OneLine, Compared;
    var next := Next(s, e);
    assert next.db.results == s.db.results && next.history == s.history && next.db.system.order == s.db.system.order;
    forall k | 0 <= k < |next.calls| ensures CallTells(next, next.calls[k]) {
      if k < |s.calls| { assert CallTells(s, s.calls[k]); }
    }
  }

  lemma OtherCallsTell(s: State, next: State, call: Call)
    requires Shape(s.db.system.order) && Shape(next.db.system.order) && CallTells(s, call)
    requires next.db == s.db || next.db.system.order.revision > s.db.system.order.revision
    requires forall r :: r in s.db.results ==> r in next.db.results && next.db.results[r] == s.db.results[r]
    ensures CallTells(next, call)
  {
    hide Shape;
  }

  lemma AttemptKeepsInv(s: State, start: Order, e: Event)
    requires Inv(s, start) && e.Attempt?
    ensures Inv(Next(s, e), start)
  {
    hide Shape, TryOnce, Compared, ResultsTell, OneLine;
    var next := Next(s, e);
    if e.call < |s.calls| && s.calls[e.call].reply.None? {
      var call := s.calls[e.call];
      assert CallTells(s, call);
      var t := TryOnce(s.db, call.command, call.stale, e.now, e.fault);
      AttemptChanges(s.db, call.command, call.stale, e.now, e.fault);
      OnlyComparisonsMismatch(s.db, call.command, call.stale, e.now, e.fault);
      if t.changed {
        var last := CommitOf(s.db, call.command, t);
        ResultsStep(s.db.results, s.history, last);
        LineStep(s.db.system.order, s.history, start, last);
        assert last.stored <==> !t.stale;
      }
      assert CallTells(next, AfterAttempt(call, t, e.cancelled));
      forall k | 0 <= k < |next.calls| ensures CallTells(next, next.calls[k]) {
        if k != e.call { OtherCallsTell(s, next, s.calls[k]); }
      }
    }
  }

  ghost predicate Initial(s: State) {
    Shape(s.db.system.order) && s.db.results == map[] && s.calls == [] && s.history == []
  }

  /** Any number of calls, attempts, faults and foreign transactions, in any order. */
  ghost function Run(s: State, events: seq<Event>): (r: State)
    requires Initial(s)
    ensures Inv(r, s.db.system.order)
  {
    if events == [] then
      s
    else
      var before, e := Run(s, events[..|events| - 1]), events[|events| - 1];
      assert Inv(Next(before, e), s.db.system.order) by {
        if e.Attempt? { AttemptKeepsInv(before, s.db.system.order, e); }
           else { ForeignKeepsInv(before, s.db.system.order, e); }
      }
      Next(before, e)
  }

  // ----- what callers can rely on -----

  /**
   * Of all calls that expect the same order revision at most one changes the order; in particular a repeated
   * payload never changes it twice, under whatever request id.
   */
  lemma OneCommitPerRevision(s: State, events: seq<Event>, i: nat, j: nat)
    requires Initial(s) && i < j < |Run(s, events).history|
    ensures var history := Run(s, events).history;
            history[i].digest.expectedRevision < history[j].digest.expectedRevision
            && history[i].digest != history[j].digest
  {
    hide Next, Shape;
    assert Inv(Run(s, events), s.db.system.order);
  }

  /** A request id changes the order again only after a comparison of its own went unstored. */
  lemma RequestActsOnceUnlessComparison(s: State, events: seq<Event>, i: nat, j: nat)
    requires Initial(s) && i < j < |Run(s, events).history|
    requires Run(s, events).history[i].requestId == Run(s, events).history[j].requestId
    ensures !Run(s, events).history[i].stored && ComparisonCommit(Run(s, events).history[i])
  {
    hide Next, Shape;
    assert Inv(Run(s, events), s.db.system.order);
  }

  /** A clean reply shows the result of the one storing commit of that request, made for that very payload. */
  lemma CleanReplyIsCommitted(s: State, events: seq<Event>, k: nat) returns (i: nat)
    requires Initial(s) && k < |Run(s, events).calls|
    requires var reply := Run(s, events).calls[k].reply;
             && reply.Some? && reply.value.error.None? && reply.value.view.Some?
    ensures i < |Run(s, events).history|
    ensures var call, commit := Run(s, events).calls[k], Run(s, events).history[i];
            && commit.requestId == call.command.requestId && commit.stored
            && commit.digest == DigestOf(call.command) && commit.after == call.reply.value.view.value
    ensures forall j :: i < j < |Run(s, events).history| ==>
              Run(s, events).history[j].requestId != Run(s, events).calls[k].command.requestId
  {
    hide Next, Shape;
    var r := Run(s, events);
    assert Inv(r, s.db.system.order) && CallTells(r, r.calls[k]);
    var id := r.calls[k].command.requestId;
    i :| 0 <= i < |r.history| && StoredBy(r.history[i], id, r.db.results[id]);
  }

  /**
   * Once a result is stored, acting under its id writes nothing: the same payload gets the stored view,
   * a different one is refused. Only an attempt that carries a stale mismatch reports an error beside the view.
   */
  lemma StoredResultAnswers(db: Database, c: Command, stale: bool, now: int)
    requires Shape(db.system.order) && c.orderId == db.system.order.id && c.requestId in db.results
    ensures TryOnce(db, c, stale, now, NoFault).db == db
    ensures ReplyOf(TryOnce(db, c, stale, now, NoFault)) ==
              if db.results[c.requestId].digest != DigestOf(c) then Reply(None, Some(KeyReused))
              else Reply(Some(db.results[c.requestId].view), if stale then Some(FailedPrecondition) else None)
  {
    hide Shape, Dispatch;
  }

  /** A payload that has changed the order without storing a result is refused when it comes back, not answered. */
  lemma UnstoredRepeatIsAborted(db: Database, c: Command, now: int, now': int)
    requires Shape(db.system.order) && TryOnce(db, c, false, now, NoFault).changed
    requires TryOnce(db, c, false, now, NoFault).stale
    ensures var t := TryOnce(db, c, false, now, NoFault);
            && Shape(t.db.system.order)
            && TryOnce(t.db, c, false, now', NoFault).db == t.db
            && ReplyOf(TryOnce(t.db, c, false, now', NoFault)).view.None?
            && ReplyOf(TryOnce(t.db, c, false, now', NoFault)).error.Some?
  {
    AttemptChanges(db, c, false, now, NoFault);
    var t := TryOnce(db, c, false, now, NoFault);
    AttemptChanges(t.db, c, false, now', NoFault);
  }

  /** No request under this id can change the order any more. */
  ghost predicate Closed(db: Database, requestId: string)
    requires Shape(db.system.order)
  {
    forall c: Command, now :: c.requestId == requestId ==> !TryOnce(db, c, false, now, NoFault).changed
  }

  /** The same comparison once more, at the revision the first one left. */
  lemma MismatchRunsAgain(db: Database, c: Command, now: int)
    requires Shape(db.system.order) && TryOnce(db, c, false, now, NoFault).changed
    requires TryOnce(db, c, false, now, NoFault).stale
    ensures Shape(TryOnce(db, c, false, now, NoFault).db.system.order)
    ensures TryOnce(TryOnce(db, c, false, now, NoFault).db, c.(expectedRevision := c.expectedRevision + 1), false, now,
                    NoFault).changed
  {
    AttemptChanges(db, c, false, now, NoFault);
    MismatchIsComparison(db, c, now, NoFault);
    CompareAgain(db.system, c, now, db.counter + 1);
  }

  lemma {:induction false} SameObservation(o: Order, next: Order, actual: seq<Catalog.Record>)
    requires WellFormedOrder(o) && WellFormedOrder(next) && next.items == o.items && next.scope == o.scope
    ensures ActualByKey(next, actual) == ActualByKey(o, actual)
  {
    hide WellFormedOrder;
    if actual != [] { SameObservation(o, next, actual[..|actual| - 1]); }
  }

  lemma CompareAgain(s: System, c: Command, now: int, newRevision: nat)
    requires Shape(s.order) && c.action.ExecuteAction?
    requires s.order.steps[s.order.currentStep].definition.Type() == Compare
    requires Dispatch(s, c, now, newRevision).Success? && !Dispatch(s, c, now, newRevision).value.matched
    ensures var next := Dispatch(s, c, now, newRevision).value.system;
            && Shape(next.order) && next.order.id == s.order.id
            && next.order.steps[next.order.currentStep].definition == s.order.steps[s.order.currentStep].definition
            && Dispatch(next, c.(expectedRevision := c.expectedRevision + 1), now, newRevision).Success?
  {
    DispatchIsOneOp(s, c, now, newRevision);
    var o, next := s.order, Dispatch(s, c, now, newRevision).value.system.order;
    assert next.steps[next.currentStep].(compareResult := o.steps[o.currentStep].compareResult)
           == o.steps[o.currentStep];
    assert AtStep(next, Compare, Pending);
    assert CompareRecords(next, s.world) == CompareRecords(o, s.world);
    SameObservation(o, next, CompareRecords(o, s.world).value);
  }

  /** The command executes a comparison, and what is stored for some target does not agree with the order. */
  ghost predicate FindsDifference(s: System, c: Command)
    requires Shape(s.order)
  {
    && c.action.ExecuteAction? && s.order.status == InProgress
    && s.order.steps[s.order.currentStep].definition.Type() == Compare
    && CompareRecords(s.order, s.world).Success?
    && ActualByKey(s.order, CompareRecords(s.order, s.world).value).Success?
    && exists i :: 0 <= i < |s.order.items| &&
         !Agrees(s.order.items[i], ActualByKey(s.order, CompareRecords(s.order, s.world).value).value)
  }

  lemma MismatchExactly(s: System, c: Command, now: int, newRevision: nat)
    requires Shape(s.order) && Dispatch(s, c, now, newRevision).Success?
    ensures Dispatch(s, c, now, newRevision).value.matched <==> !FindsDifference(s, c)
  {
    hide Shape, ActiveShape, FinishedShape, Agrees, ExecuteBase, ExecuteOverlay, ExecutePercentRollout, RollbackAll,
         ApplyEffect;
    Positioned(s.order);
    if c.action.ExecuteAction? && s.order.steps[s.order.currentStep].definition.Type() == Compare
       && s.order.status == InProgress {
      MatchesExactlyWhenTargetsAgree(s.order, c.expectedRevision, CompareRecords(s.order, s.world).value, c.actor, now);
    }
  }

  lemma Positioned(o: Order)
    requires Shape(o)
    ensures WellFormedOrder(o) && ReviewsHaveApproval(o)
  {
  }

  /**
   * A committed change leaves its request id open exactly when it was a comparison that found a target whose stored
   * record does not agree: the mismatch is written and reported, and may be repeated under the same id.
   */
  lemma ClosesItsIdUnlessMismatch(db: Database, c: Command, now: int)
    requires Shape(db.system.order) && TryOnce(db, c, false, now, NoFault).changed
    ensures Shape(TryOnce(db, c, false, now, NoFault).db.system.order)
    ensures Closed(TryOnce(db, c, false, now, NoFault).db, c.requestId) <==> !FindsDifference(db.system, c)
  {
    AttemptChanges(db, c, false, now, NoFault);
    var t := TryOnce(db, c, false, now, NoFault);
    StaleExactly(db, c, now);
    if t.stale {
      MismatchRunsAgain(db, c, now);
    } else {
      forall c': Command, now' | c'.requestId == c.requestId ensures !TryOnce(t.db, c', false, now', NoFault).changed {
        AttemptChanges(t.db, c', false, now', NoFault);
      }
    }
  }

  lemma StaleExactly(db: Database, c: Command, now: int)
    requires Shape(db.system.order) && TryOnce(db, c, false, now, NoFault).changed
    ensures TryOnce(db, c, false, now, NoFault).stale <==> FindsDifference(db.system, c)
  {
    hide Dispatch, Shape, FindsDifference;
    MismatchExactly(db.system, c, now, db.counter + 1);
  }

  /**
   * A mismatch left by a rolled back attempt is not forgotten: whatever the next attempt commits is reported as
   * failed and its result is not stored.
   */
  lemma StaleMismatchSpoilsCommit(db: Database, c: Command, now: int)
    requires Shape(db.system.order) && TryOnce(db, c, true, now, NoFault).changed
    ensures var t := TryOnce(db, c, true, now, NoFault);
            t.db.results == db.results && ReplyOf(t) == Reply(Some(t.db.system.order), Some(FailedPrecondition))
            && t.db.system.order.revision == db.system.order.revision + 1
  {
    AttemptChanges(db, c, true, now, NoFault);
  }

  lemma RunStep(s: State, events: seq<Event>, e: Event)
    requires Initial(s)
    ensures Run(s, events + [e]) == Next(Run(s, events), e)
  {
    hide Next, Inv;
    assert (events + [e])[..|events|] == events;
  }

  /**
   * Such a commit can happen: the comparison differs, its transaction is rolled back and retried, and by then
   * another transaction has made the records agree. The step is executed, yet the caller is told it failed.
   */
  lemma RetriedMismatchReportsFailure(s: State, c: Command, now: int, world: World) returns (events: seq<Event>)
    requires Initial(s) && ValidCommand(c)
    requires TryOnce(s.db, c, false, now, NoFault).changed && TryOnce(s.db, c, false, now, NoFault).stale
    requires var agreed := s.db.(system := s.db.system.(world := world));
             TryOnce(agreed, c, false, now, NoFault).changed && !TryOnce(agreed, c, false, now, NoFault).stale
    ensures var order := TryOnce(s.db.(system := s.db.system.(world := world)), c, false, now, NoFault).db.system.order;
            var r := Run(s, events);
            && r.db.system.order == order && |r.history| == 1 && r.db.results == map[]
            && |r.calls| == 1 && r.calls[0].reply == Some(Reply(Some(order), Some(FailedPrecondition)))
  {
    hide Shape, Dispatch, Inv;
    var agreed := s.db.(system := s.db.system.(world := world));
    var begin, lost := Begin(c), Attempt(0, now, FailAfter(true), false);
    var other, retry := Foreign(world, s.db.counter), Attempt(0, now, NoFault, false);
    events := [] + [begin] + [lost] + [other] + [retry];
    var none: seq<Event> := [];
    RunStep(s, none, begin);
    RunStep(s, none + [begin], lost);
    RunStep(s, none + [begin] + [lost], other);
    RunStep(s, none + [begin] + [lost] + [other], retry);
    assert Run(s, none) == s;
    StaleAttempt(agreed, c, now);
    var afterLost := Run(s, none + [begin] + [lost]);
    assert afterLost.calls == [Call(c, 1, true, None)] && afterLost.db == s.db && afterLost.history == [];
    assert Run(s, none + [begin] + [lost] + [other]).db == agreed;
  }

  /** The stale flag changes nothing but the report and the stored result. */
  lemma StaleAttempt(db: Database, c: Command, now: int)
    requires Shape(db.system.order) && TryOnce(db, c, false, now, NoFault).changed
    ensures var clean, t := TryOnce(db, c, false, now, NoFault), TryOnce(db, c, true, now, NoFault);
            && t.changed && t.stale && t.db.system == clean.db.system && t.db.results == db.results
            && t.error.None? && t.view == Some(clean.db.system.order)
  {
    hide Shape, Dispatch;
  }

  // ----- a retried mismatch -----

  function Route(code: string): Catalog.Record { Catalog.Record("routes", "prod", "k", map["code" := code], 1) }

  /** An order waiting at a comparison of one target, and a configuration holding `code` there. */
  function WaitingSystem(code: string): System {
    var scope := Overlay.Scope("cn", "prod", "");
    var item := Item("i", Effects.Add, "routes", "k", None, None, Some(Route("new")), 0, 1, ItemPending,
                     Some(BaseConflict("routes", "prod", "k")));
    var steps := [NewStep(StepDefinition("compare", [], CompareParams(CompareBase, None))),
                  NewStep(StepDefinition("complete", [], CompleteParams))];
    System(Order("o", scope, "a", InProgress, 1, 0, steps, [item], None, "a", 1),
           World(map["k" := Route(code)], map[], 1))
  }

  function CompareCommand(): Command { Command("o", "r", 1, "compare", ExecuteAction, "a", [], "") }

  lemma WaitingShape(code: string)
    ensures Shape(WaitingSystem(code).order)
  {
  }

  lemma WaitingObserves(code: string)
    requires WellFormedOrder(WaitingSystem(code).order)
    ensures var s := WaitingSystem(code);
            && TargetRecords(s.order.items, s.world.records) == [Route(code)]
            && ActualByKey(s.order, [Route(code)]) == Success(map["k" := Route(code)])
  {
    var s := WaitingSystem(code);
    var o := s.order;
    assert o.items[..0] == [];
    assert IsTarget(o, "k") by { assert o.items[0].key == "k"; }
    var actual := [Route(code)];
    assert actual[..0] == [];
  }

  lemma WaitingAgrees(code: string)
    ensures Agrees(WaitingSystem(code).order.items[0], map["k" := Route(code)]) <==> code == "new"
  {
    assert Catalog.EqualData(Route("new").data, Route(code).data) <==> code == "new" by {
      assert Catalog.Read(Route(code).data, "code") == code && Route("new").data["code"] == "new";
    }
  }

  lemma WaitingAt(code: string)
    ensures var o := WaitingSystem(code).order;
            && o.status == InProgress && o.currentStep == 0 && |o.steps| == 2 && |o.items| == 1 && o.revision == 1
            && o.steps[0].definition.Type() == Compare && o.steps[0].status == Pending
            && o.steps[0].definition.params == CompareParams(CompareBase, None)
  {
  }

  lemma WaitingCompares(code: string)
    requires Shape(WaitingSystem(code).order)
    ensures var s := WaitingSystem(code);
            && Dispatch(s, CompareCommand(), 9, 2).Success?
            && (FindsDifference(s, CompareCommand()) <==> code != "new")
  {
    hide Shape, WaitingSystem, TargetRecords, ActualByKey, Agrees, DiffKeys, Catalog.Payload, ExpectedByKey,
         WellFormedOrder;
    Positioned(WaitingSystem(code).order);
    WaitingAt(code);
    WaitingObserves(code);
    WaitingAgrees(code);
    assert !Text.Blank("a") by { assert !Text.IsSpace("a"[0]); }
  }

  /** A concrete run in which the retry executes the comparison, stores no result, and reports failure to the caller. */
  lemma RetriedMismatchHappens() returns (events: seq<Event>)
    ensures Initial(State(Database(WaitingSystem("old"), 1, map[]), [], []))
    ensures var r := Run(State(Database(WaitingSystem("old"), 1, map[]), [], []), events);
            && |r.history| == 1 && r.db.results == map[] && r.db.system.order.steps != []
            && r.db.system.order.steps[0].status == Executed
            && |r.calls| == 1 && r.calls[0].reply == Some(Reply(Some(r.db.system.order), Some(FailedPrecondition)))
  {
    hide Shape, Dispatch, FindsDifference, Inv, Next, TargetRecords;
    var s, c := State(Database(WaitingSystem("old"), 1, map[]), [], []), CompareCommand();
    var agreed := Database(WaitingSystem("new"), 1, map[]);
    WaitingShape("old");
    WaitingShape("new");
    WaitingCompares("old");
    WaitingCompares("new");
    CommandValid();
    MismatchExactly(s.db.system, c, 9, 2);
    MismatchExactly(agreed.system, c, 9, 2);
    events := RetriedMismatchReportsFailure(s, c, 9, WaitingSystem("new").world);
    ComparisonExecuted(agreed, c);
  }

  lemma CommandValid()
    ensures ValidCommand(CompareCommand())
  {
    assert !Text.Blank("a") by { assert !Text.IsSpace("a"[0]); }
    assert !Text.Blank("o") by { assert !Text.IsSpace("o"[0]); }
    assert !Text.Blank("r") by { assert !Text.IsSpace("r"[0]); }
  }

  /** A matching comparison executes its step. */
  lemma ComparisonExecuted(db: Database, c: Command)
    requires Shape(db.system.order) && db.system.order.currentStep == 0 && c.action.ExecuteAction?
    requires db.system.order.steps[0].definition.Type() == Compare
    requires TryOnce(db, c, false, 9, NoFault).changed && !TryOnce(db, c, false, 9, NoFault).stale
    ensures var o := TryOnce(db, c, false, 9, NoFault).db.system.order; o.steps != [] && o.steps[0].status == Executed
  {
  }
}
