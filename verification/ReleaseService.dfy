/** The release service's Act: one transaction body over a loaded aggregate, and the loop that retries it. */
module ReleaseService {
  import opened Wrappers
  import opened Catalog
  import opened Overlay
  import opened Template
  import opened OrderState
  import opened Lifecycle
  import opened World
  import opened ReleaseRun
  import opened ReleaseOrder
  import opened Idempotency
  import I = Idempotency

  /** The new configuration and whether a comparison matched; the order itself is changed in place. */
  datatype Dispatched = Dispatched(world: World, matched: bool)

  ghost predicate DispatchedAs(before: Order, after: Order, w: World, c: Command, now: int, newRevision: nat,
                               r: Result<Dispatched, Error>)
    requires Shape(before)
  {
    match Dispatch(System(before, w), c, now, newRevision)
    case Success(out) => r == Success(Dispatched(out.system.world, out.matched)) && after == out.system.order
                         && Shape(after)
    case Failure(error) => r == Failure(error)
  }

  /** The base records of the targets, in item order. */
  method LoadTargets(items: seq<Item>, records: map<string, Record>) returns (loaded: seq<Record>)
    ensures loaded == TargetRecords(items, records)
  {
    loaded := [];
    for n := 0 to |items|
      invariant loaded == TargetRecords(items[..n], records)
    {
      assert items[..n + 1][..n] == items[..n];
      if items[n].key in records { loaded := loaded + [records[items[n].key]]; }
    }
    assert items[..|items|] == items;
  }

  method LoadRules(items: seq<Item>, rules: map<string, Rule>) returns (loaded: seq<Rule>)
    ensures loaded == TargetRules(items, rules)
  {
    loaded := [];
    for n := 0 to |items|
      invariant loaded == TargetRules(items[..n], rules)
    {
      assert items[..n + 1][..n] == items[..n];
      if items[n].key in rules { loaded := loaded + [rules[items[n].key]]; }
    }
    assert items[..|items|] == items;
  }

  method LoadCompareRecords(o: Order, w: World) returns (r: Result<seq<Record>, Error>)
    requires WellFormedOrder(o) && AtStep(o, Compare, o.steps[o.currentStep].status)
    ensures r == CompareRecords(o, w)
  {
    hide WellFormedItem;
    var base := LoadTargets(o.items, w.records);
    var params := o.steps[o.currentStep].definition.params;
    if params.mode == CompareBase { return Success(base); }
    var rules := LoadRules(o.items, w.rules);
    var actual := Evaluate(Query(o.items[0].collection, o.scope, params.previewBucket), base, rules);
    if actual.Failure? { return Failure(Internal); }
    return Success(actual.value);
  }

  method ExecuteStep(order: Aggregate, w: World, c: Command, now: int, newRevision: nat)
    returns (r: Result<Dispatched, Error>)
    requires order.Valid() && c.action == ExecuteAction
    modifies order
    ensures DispatchedAs(old(order.State()), order.State(), w, c, now, newRevision, r)
  {
    hide Shape, ExecuteBase, ExecuteOverlay, ExecutePercentRollout, ExecuteCompare, CompleteOrder, ExecuteManualReview,
         CompareRecords, ApplyEffect;
    Loaded(order.State());
    var a := AuthorityOf(w);
    match order.steps[order.currentStep].definition.Type()
    case ManualReview =>
      var error := order.ExecuteManualReview(c.expectedRevision, c.actor, now);
      return if error.Some? then Failure(error.value) else Success(Dispatched(w, true));
    case Complete =>
      var error := order.Complete(c.expectedRevision, c.actor, now);
      return if error.Some? then Failure(error.value) else Success(Dispatched(w, true));
    case BaseApply =>
      var effect := order.ExecuteBase(a, newRevision, c.actor, now);
      if effect.Failure? { return Failure(effect.error); }
      var applied := ApplyEffect(effect.value, w);
      return if applied.Failure? then Failure(applied.error) else Success(Dispatched(applied.value, true));
    case OverlayApply =>
      var effect := order.ExecuteOverlay(a, newRevision, c.actor, now);
      if effect.Failure? { return Failure(effect.error); }
      var applied := ApplyEffect(effect.value, w);
      return if applied.Failure? then Failure(applied.error) else Success(Dispatched(applied.value, true));
    case PercentRollout =>
      var effect := order.ExecutePercentRollout(a, newRevision, c.actor, now);
      if effect.Failure? { return Failure(effect.error); }
      var applied := ApplyEffect(effect.value, w);
      return if applied.Failure? then Failure(applied.error) else Success(Dispatched(applied.value, true));
    case Compare =>
      if order.status != InProgress { return Failure(Invalid); }
      var actual := LoadCompareRecords(order.State(), w);
      if actual.Failure? { return Failure(actual.error); }
      var compared := order.ExecuteCompare(c.expectedRevision, actual.value, c.actor, now);
      return if compared.Failure? then Failure(compared.error) else Success(Dispatched(w, compared.value.1));
  }

  lemma Loaded(o: Order)
    requires Shape(o)
    ensures WellFormedOrder(o) && ReviewsHaveApproval(o)
  {
  }

  method DispatchCommand(order: Aggregate, w: World, c: Command, now: int,
                         newRevision: nat) returns (r: Result<Dispatched, Error>)
    requires order.Valid()
    modifies order
    ensures DispatchedAs(old(order.State()), order.State(), w, c, now, newRevision, r)
  {
    hide Shape, Advance, ApproveManualReview, RejectManualReview, RollbackAll, ApplyEffect;
    Loaded(order.State());
    match c.action
    case ExecuteAction =>
      r := ExecuteStep(order, w, c, now, newRevision);
    case AdvanceAction =>
      var error := order.Advance(c.expectedRevision, c.actor, now);
      return if error.Some? then Failure(error.value) else Success(Dispatched(w, true));
    case ApproveAction =>
      var error := order.ApproveManualReview(c.expectedRevision, Principal(c.actor, c.roles), c.comment, now);
      return if error.Some? then Failure(error.value) else Success(Dispatched(w, true));
    case RejectAction =>
      var error := order.RejectManualReview(c.expectedRevision, Principal(c.actor, c.roles), c.comment, now);
      return if error.Some? then Failure(error.value) else Success(Dispatched(w, true));
    case RollbackAction =>
      var plan := order.RollbackAll(c.expectedRevision, AuthorityOf(w), newRevision, c.actor, now);
      if plan.Failure? { return Failure(plan.error); }
      var applied := ApplyEffect(plan.value, w);
      return if applied.Failure? then Failure(applied.error) else Success(Dispatched(applied.value, true));
  }

  /** What the environment does to one attempt. */
  datatype Chance = Chance(now: int, fault: Fault, cancelled: bool)

  /** The attempts of one call with no other transaction between them. */
  ghost function Attempts(db: Database, call: Call, chances: seq<Chance>): (Database, Call)
    requires Shape(db.system.order)
  {
    if chances == [] || call.reply.Some? then (db, call)
    else
      var n := |chances| - 1;
      var before := Attempts(db, call, chances[..n]);
      if before.1.reply.Some? || !Shape(before.0.system.order) then before
      else
        var t := TryOnce(before.0, before.1.command, before.1.stale, chances[n].now, chances[n].fault);
        (t.db, AfterAttempt(before.1, t, chances[n].cancelled))
  }

  class Service {
    var db: Database

    ghost predicate Valid() reads this { Shape(db.system.order) }

    constructor (initial: Database)
      requires Shape(initial.system.order)
      ensures db == initial
    {
      db := initial;
    }

    /** The callback: loads a fresh aggregate, acts on it, and says what to write; nothing is written here. */
    method Work(c: Command, stale: bool, now: int) returns (r: Result<Worked, Error>)
      requires Valid()
      ensures r == I.Work(db, c, stale, now)
    {
      hide Shape, Dispatch;
      var current := db.system.order;
      if c.orderId != current.id { return Failure(Internal); }
      if c.requestId in db.results {
        var stored := db.results[c.requestId];
        if stored.digest != DigestOf(c) { return Failure(KeyReused); }
        return Success(Worked(db, stored.view, stale, false));
      }
      Loaded(current);
      var order := new Aggregate(current);
      if order.revision != c.expectedRevision { return Failure(Aborted); }
      if order.steps[order.currentStep].definition.code != c.expectedStep { return Failure(Aborted); }
      var allocates := Allocates(current, c.action);
      var dispatched := DispatchCommand(order, db.system.world, c, now, db.counter + 1);
      if dispatched.Failure? { return Failure(dispatched.error); }
      var mismatch := stale || !dispatched.value.matched;
      var view := order.State();
      var results := db.results;
      if !mismatch { results := results[c.requestId := StoredResult(DigestOf(c), view)]; }
      var written := Database(System(view, dispatched.value.world), if allocates then db.counter + 1
                              else db.counter, results);
      return Success(Worked(written, view, mismatch, true));
    }

    /** At most three attempts; the mismatch flag is declared outside the loop and outlives a retried attempt. */
    method Act(c: Command, chances: seq<Chance>) returns (reply: Reply)
      requires Valid() && |chances| == MAX_ATTEMPTS
      modifies this
      ensures Valid()
      ensures if !ValidCommand(c) then db == old(db) && reply == Reply(None, Some(Invalid))
              else var ended := Attempts(old(db), Call(c, 0, false, None), chances);
                   ended.0 == db && ended.1.reply == Some(reply)
    {
      if !ValidCommand(c) { return Reply(None, Some(Invalid)); }
      NoAttempts(db, Call(c, 0, false, None));
      hide Shape, TryOnce, AfterAttempt, ReplyOf, ValidCommand, I.Work, Dispatch, Attempts;
      var start, call := db, Call(c, 0, false, None);
      assert chances[..0] == [];
      for n := 0 to MAX_ATTEMPTS
        invariant Valid() && call.attempts == n && call.command == c && call.reply.None?
        invariant Attempts(start, Call(c, 0, false, None), chances[..n]) == (db, call)
      {
        AttemptsStep(start, Call(c, 0, false, None), chances, n);
        var t := Attempt(call, chances[n]);
        AttemptsCount(call, t, chances[n].cancelled);
        call := AfterAttempt(call, t, chances[n].cancelled);
        if call.reply.Some? {
          AttemptsEnd(start, Call(c, 0, false, None), chances, n + 1);
          return call.reply.value;
        }
      }
      assert false;
    }

    method Attempt(call: Call, chance: Chance) returns (t: Attempted)
      requires Valid()
      modifies this
      ensures t == TryOnce(old(db), call.command, call.stale, chance.now, chance.fault) && db == t.db && Valid()
    {
      hide Shape;
      AttemptChanges(db, call.command, call.stale, chance.now, chance.fault);
      if chance.fault.FailBefore? {
        return Attempted(db, call.stale, None, Some(Internal), chance.fault.retryable, false);
      }
      var worked := Work(call.command, call.stale, chance.now);
      if worked.Failure? { return Attempted(db, call.stale, None, Some(worked.error), false, false); }
      if chance.fault.FailAfter? {
        return Attempted(db, worked.value.mismatch, None, Some(Internal), chance.fault.retryable, false);
      }
      db := worked.value.db;
      if chance.fault.ReplyLost? {
        return Attempted(db, worked.value.mismatch, None, Some(Internal), false, worked.value.committed);
      }
      return Attempted(db, worked.value.mismatch, Some(worked.value.view), None, false, worked.value.committed);
    }
  }

  lemma AttemptsCount(call: Call, t: Attempted, cancelled: bool)
    ensures var next := AfterAttempt(call, t, cancelled);
            && next.attempts == call.attempts + 1 && next.command == call.command
            && (next.attempts >= MAX_ATTEMPTS ==> next.reply.Some?)
  {
  }

  lemma NoAttempts(db: Database, call: Call)
    requires Shape(db.system.order)
    ensures Attempts(db, call, []) == (db, call)
  {
  }

  lemma AttemptsStep(db: Database, call: Call, chances: seq<Chance>, n: nat)
    requires Shape(db.system.order) && call.reply.None? && n < |chances|
    requires var before := Attempts(db, call, chances[..n]); before.1.reply.None? && Shape(before.0.system.order)
    ensures var before := Attempts(db, call, chances[..n]);
            var t := TryOnce(before.0, before.1.command, before.1.stale, chances[n].now, chances[n].fault);
            Attempts(db, call, chances[..n + 1]) == (t.db, AfterAttempt(before.1, t, chances[n].cancelled))
  {
    hide Shape, TryOnce, AfterAttempt;
    assert chances[..n + 1][..n] == chances[..n];
  }

  lemma {:induction false} AttemptsEnd(db: Database, call: Call, chances: seq<Chance>, n: nat)
    requires Shape(db.system.order) && n <= |chances| && Attempts(db, call, chances[..n]).1.reply.Some?
    ensures Attempts(db, call, chances) == Attempts(db, call, chances[..n])
    decreases |chances| - n
  {
    hide Shape, TryOnce, AfterAttempt;
    if n == |chances| {
      assert chances[..n] == chances;
    } else {
      assert chances[..n + 1][..n] == chances[..n];
      AttemptsEnd(db, call, chances, n + 1);
    }
  }

  function EventsOf(chances: seq<Chance>): seq<Event> {
    seq(|chances|, i requires 0 <= i < |chances| => Event.Attempt(0, chances[i].now, chances[i].fault,
            chances[i].cancelled))
  }

  ghost predicate Stands(s: State, ended: (Database, Call)) {
    s.db == ended.0 && s.calls == [ended.1]
  }

  lemma OneMoreAttempt(s: State, db: Database, call: Call, chances: seq<Chance>)
    requires Shape(db.system.order) && Shape(s.db.system.order) && chances != []
    requires Stands(s, Attempts(db, call, chances[..|chances| - 1]))
    ensures Stands(Next(s, EventsOf(chances)[|chances| - 1]), Attempts(db, call, chances))
  {
    hide Shape, TryOnce, AfterAttempt;
  }

  /** An uninterrupted call is a run of the protocol: one start, then its attempts. */
  lemma {:induction false} ActIsARun(s: State, c: Command, chances: seq<Chance>)
    requires Initial(s) && ValidCommand(c)
    ensures Stands(I.Run(s, [Begin(c)] + EventsOf(chances)), Attempts(s.db, Call(c, 0, false, None), chances))
  {
    hide Shape, Next, Stands, Inv;
    if chances == [] {
      var none: seq<Event> := [];
      assert [Begin(c)] + EventsOf(chances) == none + [Begin(c)];
      RunStep(s, none, Begin(c));
      FirstEvent(s, c);
    } else {
      var n := |chances| - 1;
      ActIsARun(s, c, chances[..n]);
      var before := [Begin(c)] + EventsOf(chances[..n]);
      assert [Begin(c)] + EventsOf(chances) == before + [EventsOf(chances)[n]];
      RunStep(s, before, EventsOf(chances)[n]);
      ShapeAfter(s, before);
      OneMoreAttempt(I.Run(s, before), s.db, Call(c, 0, false, None), chances);
    }
  }

  lemma FirstEvent(s: State, c: Command)
    requires Initial(s) && ValidCommand(c)
    ensures Stands(Next(s, Begin(c)), (s.db, Call(c, 0, false, None)))
  {
    hide Shape;
  }

  lemma ShapeAfter(s: State, events: seq<Event>)
    requires Initial(s)
    ensures Shape(I.Run(s, events).db.system.order)
  {
    hide Shape;
    assert Inv(I.Run(s, events), s.db.system.order);
  }
}
