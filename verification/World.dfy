/** The stored configuration of one collection and scope, and what applying an effect does to it. */
module World {
  import opened Wrappers
  import opened Catalog
  import opened Overlay
  import opened Effects
  import opened OrderState

  /** Base records and exact-scope rules by record key, under one collection revision. */
  datatype World = World(records: map<string, Record>, rules: map<string, Rule>, revision: nat)

  function AuthorityOf(w: World): Authority {
    Authority(w.revision, w.records, w.rules)
  }

  predicate Belongs(record: Record, collection: string, environment: string, key: string) {
    record.collection == collection && record.environment == environment && record.key == key
  }

  predicate AllBelong(records: map<string, Record>, collection: string, environment: string) {
    forall k :: k in records ==> Belongs(records[k], collection, environment, k)
  }

  predicate WellFormedWorld(w: World, collection: string, environment: string) {
    AllBelong(w.records, collection, environment)
  }

  function ChangeKey(c: BaseChange): string {
    match (c.after, c.before)
    case (Some(after), _) => after.key
    case (None, Some(before)) => before.key
    case _ => ""
  }

  /** One record statement: an insert, an update of an existing row, or a delete. */
  function ApplyBaseChange(c: BaseChange, collection: string, environment: string, applied: nat,
                           records: map<string, Record>): map<string, Record> {
    var key := ChangeKey(c);
    match c.action
    case Add =>
      if c.after.None? then records
      else records[key := Record(collection, environment, key, c.after.value.data, applied)]
    case Modify =>
      if c.after.None? || key !in records then records
      else records[key := records[key].(data := c.after.value.data, revision := applied)]
    case Delete => records - {key}
  }

  function ApplyBase(changes: seq<BaseChange>, collection: string, environment: string, applied: nat,
                     records: map<string, Record>): map<string, Record> {
    if changes == [] then records
    else ApplyBaseChange(changes[|changes| - 1], collection, environment, applied,
                         ApplyBase(changes[..|changes| - 1], collection, environment, applied, records))
  }

  function ApplyRules(changes: seq<RuleChange>, rules: map<string, Rule>): map<string, Rule> {
    if changes == [] then rules
    else
      var last := changes[|changes| - 1];
      Put(ApplyRules(changes[..|changes| - 1], rules), last.key, last.next)
  }

  function ApplyDelta(d: Delta, w: World): World {
    World(ApplyBase(d.changes, d.collection, d.scope.environment, d.appliedRevision, w.records),
          ApplyRules(d.overlayChanges, w.rules), d.appliedRevision)
  }

  /** No insert meets an existing row, at the moment it runs. */
  predicate InsertsFresh(changes: seq<BaseChange>, collection: string, environment: string, applied: nat,
                         records: map<string, Record>) {
    changes == []
    || (InsertsFresh(changes[..|changes| - 1], collection, environment, applied, records)
        && (changes[|changes| - 1].action.Add? ==>
             ChangeKey(changes[|changes| - 1]) !in ApplyBase(changes[..|changes| - 1], collection, environment, applied,
                     records)))
  }

  // ----- table constraints -----

  /** The rule table takes three actions, and no content on a DELETE row. */
  predicate Storable(rule: Rule) {
    !rule.action.UnknownAction? && (rule.action.DeleteRecord? ==> rule.content.None?)
  }

  predicate WritesStorable(changes: seq<RuleChange>) {
    forall i :: 0 <= i < |changes| && changes[i].next.Some? ==> Storable(changes[i].next.value)
  }

  /** Copies of ADD and MODIFY rules can be written; the copy of a DELETE rule carries content and cannot. */
  predicate Rewritable(rule: Rule) {
    rule.action.AddRecord? || rule.action.ModifyRecord?
  }

  lemma RewritableExact(rule: Rule)
    ensures Storable(Clone(rule)) <==> Rewritable(rule)
  {
  }

  /** The item table ties the action to which states are given and to the record revision the item expects. */
  predicate StorableItem(item: Item) {
    match item.action
    case Add => item.baseBefore.None? && item.effectiveBefore.None? && item.after.Some?
                && item.expectedRecordRevision == 0
    case Modify => item.effectiveBefore.Some? && item.after.Some? && item.expectedRecordRevision > 0
    case Delete => item.effectiveBefore.Some? && item.after.None? && item.expectedRecordRevision > 0
  }

  /** A created order enters storage with all its items or not at all. */
  function InsertOrder(o: Order): Result<Order, Error> {
    if forall i :: 0 <= i < |o.items| ==> StorableItem(o.items[i]) then Success(o) else Failure(Internal)
  }

  // ----- the storage transaction -----

  /** Validate, write records and rules, and move the revision if it is still the expected one. */
  function ApplyEffect(e: Envelope, w: World): Result<World, Error> {
    if !ValidEnvelope(e) then Failure(FailedPrecondition)
    else
      var d := DeltaOf(e);
      if !InsertsFresh(d.changes, d.collection, d.scope.environment, d.appliedRevision, w.records)
         then Failure(Internal)
      else if !WritesStorable(d.overlayChanges) then Failure(Internal)
      else if w.revision != d.previousRevision then Failure(Aborted)
      else Success(ApplyDelta(d, w))
  }

  lemma {:induction false} ApplyBaseConcat(a: seq<BaseChange>, b: seq<BaseChange>, collection: string,
                                           environment: string, applied: nat, records: map<string, Record>)
    ensures ApplyBase(a + b, collection, environment, applied, records)
            == ApplyBase(b, collection, environment, applied, ApplyBase(a, collection, environment, applied, records))
  {
    if b == [] {
      assert a + b == a;
    } else {
      assert (a + b)[..|a + b| - 1] == a + b[..|b| - 1];
      ApplyBaseConcat(a, b[..|b| - 1], collection, environment, applied, records);
    }
  }

  lemma {:induction false} ApplyRulesConcat(a: seq<RuleChange>, b: seq<RuleChange>, rules: map<string, Rule>)
    ensures ApplyRules(a + b, rules) == ApplyRules(b, ApplyRules(a, rules))
  {
    if b == [] {
      assert a + b == a;
    } else {
      assert (a + b)[..|a + b| - 1] == a + b[..|b| - 1];
      ApplyRulesConcat(a, b[..|b| - 1], rules);
    }
  }

  function CloneRules(rules: map<string, Rule>): map<string, Rule> {
    map k | k in rules :: Clone(rules[k])
  }

  // ----- effects that describe the world they were planned on -----

  /** The change says truly what the record was before it. */
  predicate ChangeFits(c: BaseChange, collection: string, environment: string, records: map<string, Record>) {
    && ValidBaseChange(c)
    && (c.after.Some? ==> Belongs(c.after.value, collection, environment, ChangeKey(c)))
    && c.before == Lookup(records, ChangeKey(c))
  }

  predicate BaseFits(changes: seq<BaseChange>, collection: string, environment: string, applied: nat,
                     records: map<string, Record>) {
    changes == []
    || (BaseFits(changes[..|changes| - 1], collection, environment, applied, records)
        && ChangeFits(changes[|changes| - 1], collection, environment,
                      ApplyBase(changes[..|changes| - 1], collection, environment, applied, records)))
  }

  /** The change holds copies of the rule it replaces and of the rule it writes. */
  predicate RuleFits(c: RuleChange, rules: map<string, Rule>) {
    c.previous == CloneOption(Lookup(rules, c.key)) && c.next == CloneOption(c.next)
  }

  predicate RulesFit(changes: seq<RuleChange>, rules: map<string, Rule>) {
    changes == []
    || (RulesFit(changes[..|changes| - 1], rules)
        && RuleFits(changes[|changes| - 1], ApplyRules(changes[..|changes| - 1], rules)))
  }

  /** The effect was planned on this world. */
  predicate Fits(d: Delta, w: World) {
    && d.previousRevision == w.revision && d.previousRevision < d.appliedRevision
    && BaseFits(d.changes, d.collection, d.scope.environment, d.appliedRevision, w.records)
    && RulesFit(d.overlayChanges, w.rules)
  }

  lemma {:induction false} FittingInsertsAreFresh(changes: seq<BaseChange>, collection: string, environment: string,
                                                  applied: nat, records: map<string, Record>)
    requires BaseFits(changes, collection, environment, applied, records)
    ensures InsertsFresh(changes, collection, environment, applied, records)
  {
    if changes != [] {
      FittingInsertsAreFresh(changes[..|changes| - 1], collection, environment, applied, records);
    }
  }

  lemma ApplyChangeBelongs(c: BaseChange, collection: string, environment: string, applied: nat,
                           records: map<string, Record>)
    requires AllBelong(records, collection, environment)
    ensures AllBelong(ApplyBaseChange(c, collection, environment, applied, records), collection, environment)
  {
    var after := ApplyBaseChange(c, collection, environment, applied, records);
    forall k | k in after ensures Belongs(after[k], collection, environment, k) {
      if k in records { assert Belongs(records[k], collection, environment, k); }
    }
  }

  lemma {:induction false} ApplyBaseBelongs(changes: seq<BaseChange>, collection: string, environment: string,
                                            applied: nat, records: map<string, Record>)
    requires AllBelong(records, collection, environment)
    ensures AllBelong(ApplyBase(changes, collection, environment, applied, records), collection, environment)
  {
    if changes != [] {
      var init := changes[..|changes| - 1];
      ApplyBaseBelongs(init, collection, environment, applied, records);
      ApplyChangeBelongs(changes[|changes| - 1], collection, environment, applied,
                         ApplyBase(init, collection, environment, applied, records));
    }
  }
}
