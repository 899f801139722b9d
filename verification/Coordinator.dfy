/** The refresh coordinator: pending watermarks, forced requests, and the wake-up of its one writer loop. */
module Coordinator {
  import opened Wrappers
  import Text

  datatype Target = Target(collection: string, minRevision: nat, cursor: nat)

  datatype Mark = Mark(revision: nat, cursor: nat)

  /** What a published snapshot says about targets: its environment and each collection's revision and cursor. */
  datatype Marks = Marks(environment: string, collections: map<string, Mark>)

  predicate TargetReached(current: Marks, environment: string, t: Target) {
    && current.environment == environment && t.collection in current.collections
    && current.collections[t.collection].revision >= t.minRevision
    && current.collections[t.collection].cursor >= t.cursor
  }

  function Max(a: nat, b: nat): nat {
    if b > a then b else a
  }

  /** The larger watermark of each kind. */
  function Raise(current: Option<Target>, t: Target): Target {
    match current
    case None => t
    case Some(c) => Target(t.collection, Max(c.minRevision, t.minRevision), Max(c.cursor, t.cursor))
  }

  predicate ValidTarget(t: Target) {
    Text.Trim(t.collection) != "" && (t.minRevision != 0 || t.cursor != 0)
  }

  function TrimTarget(t: Target): Target {
    t.(collection := Text.Trim(t.collection))
  }

  /** One watermark per collection of a batch. */
  function MergeBatch(targets: seq<Target>): map<string, Target> {
    if targets == [] then map[]
    else
      var before, t := MergeBatch(targets[..|targets| - 1]), TrimTarget(targets[|targets| - 1]);
      before[t.collection := Raise(Lookup(before, t.collection), t)]
  }

  predicate ValidBatch(targets: seq<Target>) {
    targets != [] && forall i :: 0 <= i < |targets| ==> ValidTarget(targets[i])
  }

  function Unreached(current: Marks, environment: string, targets: map<string, Target>): map<string, Target> {
    map c | c in targets && !TargetReached(current, environment, targets[c]) :: targets[c]
  }

  function MergeInto(pending: map<string, Target>, added: map<string, Target>): map<string, Target> {
    map c | c in pending.Keys + added.Keys ::
      if c in added then Raise(Lookup(pending, c), added[c]) else pending[c]
  }

  /** The fields guarded by the coordinator's lock, and the wake channel's single slot. */
  datatype Core = Core(pending: map<string, Target>, forceRequested: nat, forceCompleted: nat, wake: bool)

  datatype Verdict = AlreadyReached | QueueFull | Merged

  /** The locked section of Submit, given the snapshot read before the lock was taken. */
  function SubmitLocked(core: Core, environment: string, capacity: nat, batch: map<string, Target>,
                        current: Marks): (Core, Verdict) {
    var rest := Unreached(current, environment, batch);
    if rest == map[] then (core, AlreadyReached)
    else
      var cleared := Unreached(current, environment, core.pending);
      if |cleared.Keys + rest.Keys| > capacity then (core.(pending := cleared), QueueFull)
      else (core.(pending := MergeInto(cleared, rest)), Merged)
  }

  predicate Outstanding(core: Core) {
    core.pending != map[] || core.forceRequested > core.forceCompleted
  }

  /**
   * The first locked section of processPending: what is left to do, and the forced requests a refresh now would cover.
   */
  function BeginLocked(core: Core, environment: string, current: Marks): (Core, Option<nat>) {
    var cleared := core.(pending := Unreached(current, environment, core.pending));
    (cleared,
     if cleared.pending == map[] && core.forceRequested == core.forceCompleted then None
     else Some(core.forceRequested))
  }

  /** The second one, after a successful refresh. */
  function FinishLocked(core: Core, environment: string, current: Marks, force: nat): Core {
    core.(pending := Unreached(current, environment, core.pending), forceCompleted := Max(core.forceCompleted, force))
  }

  // ----- backoff -----

  const MAX_INT64: int := 0x7fff_ffff_ffff_ffff

  /** A duration in nanoseconds: every value and every intermediate result fits a signed 64-bit integer. */
  newtype Duration = x: int | -MAX_INT64 - 1 <= x <= MAX_INT64

  function Pow2(n: nat): nat {
    if n == 0 then 1 else 2 * Pow2(n - 1)
  }

  lemma {:induction false} Pow2Grows(n: nat, m: nat)
    requires n <= m
    ensures 1 <= Pow2(n) <= Pow2(m)
    decreases m
  {
    if n < m { Pow2Grows(n, m - 1); } else if n > 0 { Pow2Grows(n - 1, m - 1); }
  }

  lemma ScaleGrows(base: nat, n: nat, m: nat)
    requires n <= m
    ensures base * Pow2(n) <= base * Pow2(m)
  {
    Pow2Grows(n, m);
    var d := Pow2(m) - Pow2(n);
    assert base * Pow2(m) == base * Pow2(n) + base * d;
  }

  function Least(a: int, b: int): int {
    if a <= b then a else b
  }

  class RefreshCoordinator {
    const environment: string
    const capacity: nat
    const initialBackoff: Duration
    const maxBackoff: Duration
    var pending: map<string, Target>
    var forceRequested: nat
    var forceCompleted: nat
    var wake: bool

    function State(): Core
      reads this
    {
      Core(pending, forceRequested, forceCompleted, wake)
    }

    predicate Valid()
      reads this
    {
      |pending| <= capacity && forceCompleted <= forceRequested && 0 < initialBackoff <= maxBackoff
    }

    constructor (environment: string, capacity: nat, initialBackoff: Duration, maxBackoff: Duration)
      requires capacity > 0 && 0 < initialBackoff <= maxBackoff
      ensures Valid() && State() == Core(map[], 0, 0, false)
      ensures this.environment == environment && this.capacity == capacity
      ensures this.initialBackoff == initialBackoff && this.maxBackoff == maxBackoff
    {
      this.environment, this.capacity, this.initialBackoff, this.maxBackoff := environment, capacity, initialBackoff,
          maxBackoff;
      pending, forceRequested, forceCompleted, wake := map[], 0, 0, false;
    }

    method ClearReached(current: Marks)
      modifies this`pending
      ensures pending == Unreached(current, environment, old(pending))
    {
      var left := pending.Keys;
      ghost var was := pending;
      while left != {}
        invariant left <= was.Keys
        invariant pending == map c | c in was && (c in left || !TargetReached(current, environment, was[c])) :: was[c]
        decreases left
      {
        var c :| c in left;
        if TargetReached(current, environment, pending[c]) { pending := pending - {c}; }
        left := left - {c};
      }
    }

    method Signal()
      modifies this`wake
      ensures wake
    {
      if !wake { wake := true; }
    }

    method MergeAll(rest: map<string, Target>)
      modifies this`pending
      ensures pending == MergeInto(old(pending), rest)
    {
      hide TargetReached;
      ghost var was := pending;
      var left := rest.Keys;
      while left != {}
        invariant left <= rest.Keys && pending.Keys == was.Keys + (rest.Keys - left)
        invariant forall c :: c in pending ==>
                    pending[c] == if c in rest && c !in left then Raise(Lookup(was, c), rest[c]) else was[c]
        decreases left
      {
        var c :| c in left;
        pending := pending[c := Raise(Lookup(pending, c), rest[c])];
        left := left - {c};
      }
    }

    /** Submit without interference: merge the batch, then the locked section, then the signal. */
    method Submit(targets: seq<Target>, current: Marks) returns (r: Option<Verdict>)
      requires Valid()
      modifies this
      ensures Valid()
      ensures r.None? <==> !ValidBatch(targets)
      ensures r.None? ==> State() == old(State())
      ensures r.Some? ==>
                var (core, verdict) := SubmitLocked(old(State()), environment, capacity, MergeBatch(targets), current);
                r == Some(verdict) && State() == (if verdict == Merged then core.(wake := true) else core)
    {
      hide TargetReached, ValidBatch, MergeBatch, Unreached, MergeInto;
      var merged := CollectBatch(targets);
      if merged.None? { return None; }
      var rest := DropReached(merged.value, environment, current);
      if rest == map[] { return Some(AlreadyReached); }
      UnreachedIsSmaller(current, environment, pending);
      ClearReached(current);
      var additional := CountAdditional(pending, rest);
      if |pending| + additional > capacity { return Some(QueueFull); }
      MergedKeys(pending, rest);
      MergeAll(rest);
      Signal();
      return Some(Merged);
    }

    method RequestRefresh()
      requires Valid()
      modifies this
      ensures Valid() && State() == old(State()).(forceRequested := old(forceRequested) + 1, wake := true)
    {
      forceRequested := forceRequested + 1;
      Signal();
    }

    /**
     * processPending without interference: `before` and `after` are the snapshots around the refresh, none when it
     * fails.
     */
    method ProcessPending(before: Marks, after: Option<Marks>) returns (worked: bool, ok: bool)
      requires Valid()
      modifies this
      ensures Valid()
      ensures var (core, force) := BeginLocked(old(State()), environment, before);
              match force
              case None => !worked && ok && State() == core
              case Some(f) =>
                worked && match after
                  case None => !ok && State() == core
                  case Some(current) => State() == FinishLocked(core, environment, current, f)
                                        && (ok <==> pending == map[])
    {
      hide TargetReached;
      UnreachedIsSmaller(before, environment, pending);
      ClearReached(before);
      var force := forceRequested;
      if |pending| == 0 && force == forceCompleted { return false, true; }
      if after.None? { return true, false; }
      UnreachedIsSmaller(after.value, environment, pending);
      ClearReached(after.value);
      if force > forceCompleted { forceCompleted := force; }
      return true, |pending| == 0;
    }

    /** The delay before the next attempt: doubled each time from the initial backoff, and never above the maximum. */
    method RetryDelay(attempt: nat) returns (delay: Duration)
      requires 0 < initialBackoff <= maxBackoff
      ensures delay as int == Least(maxBackoff as int, initialBackoff as int * Pow2(attempt))
      ensures initialBackoff <= delay <= maxBackoff
    {
      delay := initialBackoff;
      var step := 0;
      ghost var base := initialBackoff as int;
      while step < attempt && delay < maxBackoff
        invariant 0 <= step <= attempt
        invariant delay as int == base * Pow2(step)
        invariant initialBackoff <= delay <= maxBackoff
      {
        ScaleGrows(base, step + 1, attempt);
        assert base * Pow2(step + 1) == 2 * (base * Pow2(step));
        if delay > maxBackoff / 2 { return maxBackoff; }
        delay := delay * 2;
        step := step + 1;
      }
      ScaleGrows(base, step, attempt);
    }
  }

  lemma UnreachedIsSmaller(current: Marks, environment: string, targets: map<string, Target>)
    ensures Unreached(current, environment, targets).Keys <= targets.Keys
    ensures |Unreached(current, environment, targets)| <= |targets|
  {
    SubsetSize(Unreached(current, environment, targets).Keys, targets.Keys);
  }

  lemma SubsetSize(a: set<string>, b: set<string>)
    requires a <= b
    ensures |a| <= |b|
  {
    assert b == a + (b - a);
  }

  lemma MergedKeys(pending: map<string, Target>, added: map<string, Target>)
    ensures |MergeInto(pending, added)| == |pending.Keys + added.Keys|
  {
    assert MergeInto(pending, added).Keys == pending.Keys + added.Keys;
    assert |MergeInto(pending, added)| == |MergeInto(pending, added).Keys|;
  }

  method DropReached(batch: map<string, Target>, environment: string, current: Marks)
    returns (rest: map<string, Target>)
    ensures rest == Unreached(current, environment, batch)
  {
    hide TargetReached;
    rest := batch;
    var left := batch.Keys;
    while left != {}
      invariant left <= batch.Keys
      invariant rest == map c | c in batch && (c in left || !TargetReached(current, environment, batch[c])) :: batch[c]
      decreases left
    {
      var c :| c in left;
      if TargetReached(current, environment, rest[c]) { rest := rest - {c}; }
      left := left - {c};
    }
  }

  lemma TakeOne(left: set<string>, c: string, pending: set<string>)
    requires c in left
    ensures |left - pending| == |(left - {c}) - pending| + (if c in pending then 0 else 1)
  {
    if c in pending {
      assert (left - {c}) - pending == left - pending;
    } else {
      assert left - pending == ((left - {c}) - pending) + {c};
    }
  }

  lemma UnionSize(pending: set<string>, rest: set<string>)
    ensures |pending + rest| == |pending| + |rest - pending|
  {
    assert pending + rest == pending + (rest - pending);
  }

  method CountAdditional(pending: map<string, Target>, rest: map<string, Target>) returns (additional: nat)
    ensures |pending| + additional == |pending.Keys + rest.Keys|
  {
    additional := 0;
    var left := rest.Keys;
    while left != {}
      invariant additional + |left - pending.Keys| == |rest.Keys - pending.Keys|
      decreases left
    {
      var c :| c in left;
      TakeOne(left, c, pending.Keys);
      if c !in pending { additional := additional + 1; }
      left := left - {c};
    }
    UnionSize(pending.Keys, rest.Keys);
    assert |pending| == |pending.Keys|;
    assert {} - pending.Keys == {};
  }

  /** The batch merged by collection; an empty batch, an empty name or a zero watermark is refused. */
  method CollectBatch(targets: seq<Target>) returns (r: Option<map<string, Target>>)
    ensures r.Some? <==> ValidBatch(targets)
    ensures r.Some? ==> r.value == MergeBatch(targets)
  {
    hide Text.Trim;
    var merged: map<string, Target> := map[];
    for n := 0 to |targets|
      invariant forall i :: 0 <= i < n ==> ValidTarget(targets[i])
      invariant merged == MergeBatch(targets[..n]) && (n > 0 ==> merged != map[])
    {
      assert targets[..n + 1][..n] == targets[..n];
      if !ValidTarget(targets[n]) { return None; }
      var t := TrimTarget(targets[n]);
      merged := merged[t.collection := Raise(Lookup(merged, t.collection), t)];
    }
    assert targets[..|targets|] == targets;
    if |merged| == 0 { return None; }
    return Some(merged);
  }
}
