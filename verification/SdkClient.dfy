/** The SDK client: validating a response into a candidate, and one refresh. */
module SdkClient {
  import opened Wrappers
  import opened Catalog
  import opened Snapshot
  import opened ConfigServer
  import opened Dependencies
  import Text

  datatype CollectionSnapshot = CollectionSnapshot(revision: nat, digest: Digest, records: map<string, SentRecord>)

  datatype ClientSnapshot = ClientSnapshot(identity: Identity, environment: string,
                                           collections: map<string, CollectionSnapshot>)

  datatype ClientError = TransportFailed | BadCandidate | CallbackRefused

  predicate SameInstance(left: Identity, right: Identity) {
    left.seed == right.seed
  }

  predicate CompleteIdentity(i: Identity) {
    Text.Trim(i.seed.epoch) != "" && Text.Trim(i.seed.server) != "" && Text.Trim(i.seed.snapshot) != ""
    && i.generation != 0
  }

  /** The candidate starts empty on the first refresh and whenever the server instance changes. */
  predicate Resets(identity: Identity, before: ClientSnapshot) {
    before.identity.generation == 0 || !SameInstance(identity, before.identity)
  }

  predicate Regresses(identity: Identity, before: ClientSnapshot) {
    SameInstance(identity, before.identity) && identity.generation < before.identity.generation
  }

  // ----- one payload -----

  predicate DistinctKeys(records: seq<SentRecord>) {
    forall i, j :: 0 <= i < j < |records| ==> records[i].key != records[j].key
  }

  predicate GoodRecords(records: seq<SentRecord>, revision: nat) {
    (forall i :: 0 <= i < |records| ==> records[i].key != "" && 0 < records[i].revision <= revision)
    && DistinctKeys(records)
  }

  function SentByKey(records: seq<SentRecord>): map<string, SentRecord> {
    if records == [] then map[]
       else SentByKey(records[..|records| - 1])[records[|records| - 1].key := records[|records| - 1]]
  }

  function DataOf(records: map<string, SentRecord>): map<string, Data> {
    map k | k in records :: records[k].data
  }

  predicate GoodPayload(p: CollectionPayload) {
    && Text.Trim(p.name) != "" && p.revision != 0
    && GoodRecords(p.records, p.revision) && p.digest == Digest(DataOf(SentByKey(p.records)))
  }

  function Received(p: CollectionPayload): CollectionSnapshot {
    CollectionSnapshot(p.revision, p.digest, SentByKey(p.records))
  }

  // ----- a whole response -----

  predicate GoodDeleted(deleted: seq<string>) {
    (forall i :: 0 <= i < |deleted| ==> Text.Trim(deleted[i]) != "") && NoRepeats(deleted)
  }

  predicate GoodPayloads(payloads: seq<CollectionPayload>, deleted: seq<string>) {
    && (forall i :: 0 <= i < |payloads| ==> GoodPayload(payloads[i]) && payloads[i].name !in deleted)
    && (forall i, j :: 0 <= i < j < |payloads| ==> payloads[i].name != payloads[j].name)
  }

  function Merged(collections: map<string, CollectionSnapshot>,
                  payloads: seq<CollectionPayload>): map<string, CollectionSnapshot> {
    if payloads == [] then collections
    else
      Merged(collections, payloads[..|payloads| - 1])
        [payloads[|payloads| - 1].name := Received(payloads[|payloads| - 1])]
  }

  predicate Acceptable(response: Response, before: ClientSnapshot) {
    && CompleteIdentity(response.identity) && response.environment == before.environment
    && !Regresses(response.identity, before)
    && GoodDeleted(response.deleted) && GoodPayloads(response.collections, response.deleted)
  }

  function Candidate(response: Response, before: ClientSnapshot): ClientSnapshot {
    var start := if Resets(response.identity, before) then map[] else before.collections;
    ClientSnapshot(response.identity, response.environment,
                   Merged(start - Text.Elements(response.deleted), response.collections))
  }

  lemma {:induction false} SentMeaning(records: seq<SentRecord>)
    requires DistinctKeys(records)
    ensures forall k :: k in SentByKey(records) ==> exists i :: 0 <= i < |records| && records[i].key == k
    ensures forall i :: 0 <= i < |records| ==> Lookup(SentByKey(records), records[i].key) == Some(records[i])
  {
    if records != [] {
      var init := records[..|records| - 1];
      assert forall i :: 0 <= i < |init| ==> init[i] == records[i];
      SentMeaning(init);
    }
  }

  lemma RecordsStep(records: seq<SentRecord>, revision: nat, n: nat)
    requires n < |records| && GoodRecords(records[..n], revision)
    ensures GoodRecords(records[..n + 1], revision) <==>
              records[n].key != "" && 0 < records[n].revision <= revision && records[n].key !in SentByKey(records[..n])
    ensures GoodRecords(records, revision) ==> GoodRecords(records[..n + 1], revision)
  {
    hide SentByKey;
    forall i | 0 <= i < n ensures records[..n][i] == records[i] == records[..n + 1][i] {}
    SentMeaning(records[..n]);
    forall i | 0 <= i < n
      ensures records[i].key in SentByKey(records[..n])
    {
      assert records[..n][i].key == records[i].key;
    }
  }

  method ReceivePayload(p: CollectionPayload) returns (r: Option<CollectionSnapshot>)
    ensures r.Some? <==> GoodPayload(p)
    ensures r.Some? ==> r.value == Received(p)
  {
    hide Text.Trim, GoodRecords;
    if Text.Trim(p.name) == "" || p.revision == 0 { return None; }
    NoRecords(p.revision);
    var records: map<string, SentRecord> := map[];
    for n := 0 to |p.records|
      invariant GoodRecords(p.records[..n], p.revision) && records == SentByKey(p.records[..n])
    {
      var source := p.records[n];
      assert p.records[..n + 1][..n] == p.records[..n];
      RecordsStep(p.records, p.revision, n);
      if source.key == "" || source.revision == 0 || source.revision > p.revision { return None; }
      if source.key in records { return None; }
      records := records[source.key := source];
    }
    assert p.records[..|p.records|] == p.records;
    if p.digest != Digest(DataOf(records)) { return None; }
    return Some(CollectionSnapshot(p.revision, p.digest, records));
  }

  lemma NoRecords(revision: nat)
    ensures GoodRecords([], revision)
  {
  }

  method ReadDeleted(deleted: seq<string>, collections: map<string, CollectionSnapshot>)
    returns (r: Option<map<string, CollectionSnapshot>>)
    ensures r.Some? <==> GoodDeleted(deleted)
    ensures r.Some? ==> r.value == collections - Text.Elements(deleted)
  {
    hide Text.Trim;
    var seen: set<string>, left := {}, collections;
    for n := 0 to |deleted|
      invariant forall i :: 0 <= i < n ==> Text.Trim(deleted[i]) != ""
      invariant NoRepeats(deleted[..n]) && seen == Text.Elements(deleted[..n]) && left == collections - seen
    {
      assert deleted[..n + 1] == deleted[..n] + [deleted[n]];
      if Text.Trim(deleted[n]) == "" { return None; }
      if deleted[n] in seen {
        var i :| 0 <= i < n && deleted[..n][i] == deleted[n];
        assert deleted[i] == deleted[n];
        return None;
      }
      seen, left := seen + {deleted[n]}, left - {deleted[n]};
    }
    assert deleted[..|deleted|] == deleted;
    return Some(left);
  }

  lemma {:induction false} MergedMeaning(collections: map<string, CollectionSnapshot>, payloads: seq<CollectionPayload>)
    requires forall i, j :: 0 <= i < j < |payloads| ==> payloads[i].name != payloads[j].name
    ensures forall i :: 0 <= i < |payloads| ==>
              Lookup(Merged(collections, payloads), payloads[i].name) == Some(Received(payloads[i]))
    ensures forall n :: (forall i :: 0 <= i < |payloads| ==> payloads[i].name != n) ==>
              Lookup(Merged(collections, payloads), n) == Lookup(collections, n)
  {
    if payloads != [] {
      var init := payloads[..|payloads| - 1];
      assert forall i :: 0 <= i < |init| ==> init[i] == payloads[i];
      MergedMeaning(collections, init);
    }
  }

  /**
   * buildCandidate: checks in the order of the code, starting from the views already held unless the instance changed.
   */
  method BuildCandidate(response: Response, before: ClientSnapshot) returns (r: Option<ClientSnapshot>)
    ensures r.Some? <==> Acceptable(response, before)
    ensures r.Some? ==> r.value == Candidate(response, before)
  {
    hide Text.Trim, GoodPayload, Received, GoodDeleted;
    if !CompleteIdentity(response.identity) || response.environment != before.environment { return None; }
    if Regresses(response.identity, before) { return None; }
    var start := if Resets(response.identity, before) then map[] else before.collections;
    var kept := ReadDeleted(response.deleted, start);
    if kept.None? { return None; }
    var collections, payloads := kept.value, response.collections;
    var seen: set<string> := {};
    for n := 0 to |payloads|
      invariant GoodPayloads(payloads[..n], response.deleted)
      invariant collections == Merged(kept.value, payloads[..n])
      invariant forall k :: k in seen <==> exists i :: 0 <= i < n && payloads[i].name == k
    {
      assert payloads[..n + 1][..n] == payloads[..n];
      forall i | 0 <= i < n ensures payloads[..n][i] == payloads[i] == payloads[..n + 1][i] {}
      if payloads[n].name in response.deleted { return None; }
      if payloads[n].name in seen { return None; }
      var view := ReceivePayload(payloads[n]);
      if view.None? { return None; }
      collections, seen := collections[payloads[n].name := view.value], seen + {payloads[n].name};
    }
    assert payloads[..|payloads|] == payloads;
    return Some(ClientSnapshot(response.identity, response.environment, collections));
  }

  // ----- versions and changes -----

  /** The versions held, in name order. */
  ghost function Known(c: ClientSnapshot): (r: seq<Version>)
    ensures |r| == |Text.InOrder(c.collections.Keys)|
  {
    var names := Text.InOrder(c.collections.Keys);
    seq(|names|, i requires 0 <= i < |names| =>
      assert names[i] in Text.Elements(names);
      Version(names[i], c.collections[names[i]].revision, c.collections[names[i]].digest))
  }

  method KnownVersions(c: ClientSnapshot) returns (versions: seq<Version>)
    ensures versions == Known(c)
  {
    var names := Text.SortNames(c.collections.Keys);
    Text.StrictlySortedUnique(names, Text.InOrder(c.collections.Keys));
    versions := [];
    for n := 0 to |names|
      invariant |versions| == n
      invariant forall i :: 0 <= i < n ==>
                  names[i] in c.collections
                  && versions[i] == Version(names[i], c.collections[names[i]].revision, c.collections[names[i]].digest)
    {
      assert names[n] in Text.Elements(names);
      versions := versions + [Version(names[n], c.collections[names[n]].revision, c.collections[names[n]].digest)];
    }
  }

  predicate Changed(before: ClientSnapshot, after: ClientSnapshot, n: string) {
    match (Lookup(before.collections, n), Lookup(after.collections, n))
    case (None, None) => false
    case (Some(b), Some(a)) => b.revision != a.revision || b.digest != a.digest
    case _ => true
  }

  /** The names whose revision, digest or presence differs, in name order. */
  ghost function Changes(before: ClientSnapshot, after: ClientSnapshot): seq<string> {
    Text.InOrder(set n | n in before.collections.Keys + after.collections.Keys && Changed(before, after, n))
  }

  method ChangedCollections(before: ClientSnapshot, after: ClientSnapshot) returns (changed: seq<string>)
    ensures changed == Changes(before, after)
  {
    var names: set<string> := {};
    var held := after.collections.Keys;
    while held != {}
      invariant held <= after.collections.Keys
      invariant names == set n | n in after.collections && n !in held && Changed(before, after, n)
      decreases held
    {
      var n :| n in held;
      if n !in before.collections || before.collections[n].revision != after.collections[n].revision
         || before.collections[n].digest != after.collections[n].digest { names := names + {n}; }
      held := held - {n};
    }
    held := before.collections.Keys;
    while held != {}
      invariant held <= before.collections.Keys
      invariant names == set n | n in after.collections.Keys + (before.collections.Keys - held)
                && Changed(before, after, n)
      decreases held
    {
      var n :| n in held;
      if n !in after.collections { names := names + {n}; }
      held := held - {n};
    }
    assert names == set n | n in before.collections.Keys + after.collections.Keys && Changed(before, after, n);
    changed := Text.SortNames(names);
    Text.StrictlySortedUnique(changed, Text.InOrder(names));
  }

  // ----- refreshing -----

  /** The transport: what each of the two possible calls of one refresh is answered. */
  type Transport = (seq<Version>, bool) -> Option<Response>

  /** The response a refresh works with: a delta, or a full answer after a change of instance. */
  ghost function Fetched(transport: Transport, before: ClientSnapshot): Option<Response> {
    var first :- transport(Known(before), false);
    if before.identity.generation != 0 && !SameInstance(first.identity, before.identity) && Known(before) != []
    then transport([], true)
    else Some(first)
  }

  /** The snapshot held after a refresh, and the error reported. */
  ghost function Refreshed(transport: Transport, callback: seq<string> -> bool,
                           before: ClientSnapshot): (ClientSnapshot, Option<ClientError>) {
    match Fetched(transport, before)
    case None => (before, Some(TransportFailed))
    case Some(response) =>
      if !Acceptable(response, before) then (before, Some(BadCandidate))
      else if !callback(Changes(before, Candidate(response, before))) then (before, Some(CallbackRefused))
      else (Candidate(response, before), None)
  }

  class Client {
    var current: ClientSnapshot

    constructor (environment: string, none: Identity)
      requires none.generation == 0
      ensures current == ClientSnapshot(none, environment, map[])
    {
      current := ClientSnapshot(none, environment, map[]);
    }

    /**
     * Any failure keeps the snapshot held; success swaps it for the whole candidate, whose changes the callback has
     * seen.
     */
    method Refresh(transport: Transport, callback: seq<string> -> bool) returns (r: Option<ClientError>)
      modifies this
      ensures (current, r) == Refreshed(transport, callback, old(current))
    {
      hide Acceptable, Candidate, Changed;
      var before := current;
      var known := KnownVersions(before);
      var response := transport(known, false);
      if response.None? { return Some(TransportFailed); }
      if before.identity.generation != 0 && !SameInstance(response.value.identity, before.identity) && |known| > 0 {
        response := transport([], true);
        if response.None? { return Some(TransportFailed); }
      }
      var candidate := BuildCandidate(response.value, before);
      if candidate.None? { return Some(BadCandidate); }
      var changed := ChangedCollections(before, candidate.value);
      if !callback(changed) { return Some(CallbackRefused); }
      current := candidate.value;
      return None;
    }
  }
}
