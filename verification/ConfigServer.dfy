/** The Config Server: what a client is shown of a snapshot, and the delta against the versions it already knows. */
module ConfigServer {
  import opened Wrappers
  import opened Catalog
  import opened Overlay
  import opened Snapshot
  import opened Composition
  import Text

  datatype Version = Version(collection: string, revision: nat, digest: Digest)

  datatype Request = Request(consumer: string, client: string, region: string, environment: string, stage: string,
                             known: seq<Version>)

  datatype SentRecord = SentRecord(key: string, revision: nat, data: Data)

  datatype CollectionPayload = CollectionPayload(name: string, revision: nat, cursor: nat, digest: Digest,
                                                 records: seq<SentRecord>)

  datatype Response = Response(
    identity: Identity, region: string, environment: string, stage: string, bucket: int,
    collections: seq<CollectionPayload>, deleted: seq<string>)

  datatype ServeError = Incomplete | WrongEnvironment | Unavailable | BadKnown | EvaluationFailed | DigestFailed

  // ----- one collection as this client sees it -----

  function QueryFor(r: Request, bucket: int, name: string): Query {
    Query(name, Scope(r.region, r.environment, r.stage), Some(bucket))
  }

  ghost predicate ViewListed(s: Snapshot, name: string) {
    name in s.collections && s.collections[name].ordered == Text.InOrder(s.collections[name].records.Keys)
  }

  /** The effective records of a collection, by key. */
  ghost function Effective(s: Snapshot, r: Request, bucket: int, name: string): Result<map<string, Record>, ServeError>
    requires ViewListed(s, name)
  {
    match EvaluateMap(QueryFor(r, bucket, name), RecordList(s.collections[name]), s.collections[name].rules)
    case Failure(_) => Failure(EvaluationFailed)
    case Success(records) => if "" in records then Failure(DigestFailed) else Success(records)
  }

  function Sent(records: seq<Record>): (r: seq<SentRecord>)
    ensures |r| == |records|
  {
    seq(|records|, i requires 0 <= i < |records| => SentRecord(records[i].key, records[i].revision, records[i].data))
  }

  ghost function PayloadOf(s: Snapshot, r: Request, bucket: int, name: string): Result<CollectionPayload, ServeError>
    requires ViewListed(s, name)
  {
    var records :- Effective(s, r, bucket, name);
    Success(CollectionPayload(name, s.collections[name].version, s.collections[name].cursor,
                              Digest(Payload(records)), Sent(Listing(records))))
  }

  // ----- the answer -----

  /** Authorized for the consumer, present, and delivered to SDKs. */
  function Visible(s: Snapshot, consumer: string): set<string> {
    var authorized := if consumer in s.authorized then s.authorized[consumer] else [];
    set n | n in s.collections && n in TrimmedSet(authorized) && s.collections[n].definition.delivered
  }

  predicate GoodKnown(known: seq<Version>) {
    && (forall i :: 0 <= i < |known| ==> Text.Trim(known[i].collection) != "")
    && (forall i, j :: 0 <= i < j < |known| ==> Text.Trim(known[i].collection) != Text.Trim(known[j].collection))
  }

  function KnownByName(known: seq<Version>): map<string, Version> {
    if known == [] then map[]
    else
      var last := known[|known| - 1];
      KnownByName(known[..|known| - 1])[Text.Trim(last.collection) := last.(collection := Text.Trim(last.collection))]
  }

  predicate UpToDate(known: map<string, Version>, p: CollectionPayload) {
    p.name in known && known[p.name].revision == p.revision && known[p.name].digest == p.digest
  }

  ghost function PayloadsFor(s: Snapshot, r: Request, bucket: int, known: map<string, Version>,
                             names: seq<string>): Result<seq<CollectionPayload>, ServeError>
    requires forall i :: 0 <= i < |names| ==> ViewListed(s, names[i])
  {
    if names == [] then Success([])
    else
      var before :- PayloadsFor(s, r, bucket, known, names[..|names| - 1]);
      var last :- PayloadOf(s, r, bucket, names[|names| - 1]);
      Success(if UpToDate(known, last) then before else before + [last])
  }

  function Normalized(r: Request): Request {
    Request(Text.Trim(r.consumer), Text.Trim(r.client), Text.Trim(r.region), Text.Trim(r.environment),
            Text.Trim(r.stage), r.known)
  }

  ghost predicate AllListed(s: Snapshot) {
    forall n :: n in s.collections ==> ViewListed(s, n)
  }

  lemma VisibleListed(s: Snapshot, consumer: string)
    requires AllListed(s)
    ensures forall i :: 0 <= i < |Text.InOrder(Visible(s, consumer))| ==>
              ViewListed(s, Text.InOrder(Visible(s, consumer))[i])
  {
    var names := Text.InOrder(Visible(s, consumer));
    forall i | 0 <= i < |names| ensures ViewListed(s, names[i]) { assert names[i] in Text.Elements(names); }
  }

  /** The delta of a normalized request. */
  ghost function Delta(s: Snapshot, r: Request, bucket: int): Result<Response, ServeError>
    requires AllListed(s)
  {
    if !GoodKnown(r.known) then Failure(BadKnown)
    else
      VisibleListed(s, r.consumer);
      var known := KnownByName(r.known);
      var payloads :- PayloadsFor(s, r, bucket, known, Text.InOrder(Visible(s, r.consumer)));
      Success(Response(s.identity, r.region, s.environment, r.stage, bucket, payloads,
                       Text.InOrder(known.Keys - Visible(s, r.consumer))))
  }

  ghost function Answer(current: Option<Snapshot>, managed: string, bucketOf: (string, string) -> Option<int>,
                        request: Request): Result<Response, ServeError>
    requires current.Some? ==> AllListed(current.value)
  {
    var r := Normalized(request);
    if managed == "" || r.consumer == "" || r.client == "" || r.region == ""
       || r.environment == ""
    then Failure(Incomplete)
    else if r.environment != managed then Failure(WrongEnvironment)
    else match bucketOf(r.consumer, r.client)
      case None => Failure(Incomplete)
      case Some(bucket) =>
        if current.None? then Failure(Unavailable)
        else if current.value.environment != managed then Failure(WrongEnvironment)
        else Delta(current.value, r, bucket)
  }

  // ----- the loops -----

  function DataByKey(records: seq<Record>): map<string, Data> {
    if records == [] then map[]
       else DataByKey(records[..|records| - 1])[records[|records| - 1].key := records[|records| - 1].data]
  }

  lemma {:induction false} DataByKeyMeaning(records: seq<Record>)
    requires DistinctRecords(records)
    ensures forall k :: k in DataByKey(records) ==> exists i :: 0 <= i < |records| && records[i].key == k
    ensures forall i :: 0 <= i < |records| ==> Lookup(DataByKey(records), records[i].key) == Some(records[i].data)
  {
    if records != [] {
      var init := records[..|records| - 1];
      assert forall i :: 0 <= i < |init| ==> init[i] == records[i];
      DataByKeyMeaning(init);
    }
  }

  /** The digest of a sorted listing is the digest of the map it lists. */
  lemma ListingDigest(records: map<string, Record>)
    requires WellKeyed(records)
    ensures DistinctRecords(Listing(records)) && DataByKey(Listing(records)) == Payload(records)
  {
    var keys, listing := Text.InOrder(records.Keys), Listing(records);
    forall i | 0 <= i < |keys|
      ensures keys[i] in records && listing[i] == records[keys[i]] && listing[i].key == keys[i]
    {
      assert keys[i] in Text.Elements(keys);
    }
    forall i, j | 0 <= i < j < |keys| ensures listing[i].key != listing[j].key { Text.LessIrreflexive(keys[i]); }
    DataByKeyMeaning(listing);
    forall k | k in records ensures Lookup(DataByKey(listing), k) == Some(records[k].data) {
      assert k in Text.Elements(keys);
      var i :| 0 <= i < |keys| && keys[i] == k;
      assert listing[i] == records[k];
    }
    forall k | k in DataByKey(listing) ensures k in records {
      var i :| 0 <= i < |listing| && listing[i].key == k;
    }
  }

  /** computeBaseDigest: an empty or repeated key is an error. */
  method ComputeBaseDigest(records: seq<Record>) returns (r: Option<Digest>)
    ensures r.Some? <==> DistinctRecords(records) && forall i :: 0 <= i < |records| ==> records[i].key != ""
    ensures r.Some? ==> r.value == Digest(DataByKey(records))
  {
    var data: map<string, Data> := map[];
    for n := 0 to |records|
      invariant DistinctRecords(records[..n]) && forall i :: 0 <= i < n ==> records[i].key != ""
      invariant data == DataByKey(records[..n])
    {
      assert records[..n + 1][..n] == records[..n];
      forall i | 0 <= i < n ensures records[..n][i] == records[i] == records[..n + 1][i] {}
      DataByKeyMeaning(records[..n]);
      if records[n].key == "" { return None; }
      if records[n].key in data {
        var i :| 0 <= i < n && records[..n][i].key == records[n].key;
        assert records[i].key == records[n].key;
        return None;
      }
      data := data[records[n].key := records[n].data];
    }
    assert records[..|records|] == records;
    return Some(Digest(data));
  }

  method ServeCollection(s: Snapshot, r: Request, bucket: int, name: string)
    returns (out: Result<CollectionPayload, ServeError>)
    requires ViewListed(s, name)
    ensures out == PayloadOf(s, r, bucket, name)
  {
    hide EvaluateMap, WellKeyed;
    var view, q := s.collections[name], QueryFor(r, bucket, name);
    var base: seq<Record> := [];
    for n := 0 to |view.ordered|
      invariant |base| == n
      invariant forall i :: 0 <= i < n ==> view.ordered[i] in view.records && base[i] == view.records[view.ordered[i]]
    {
      assert view.ordered[n] in Text.Elements(view.ordered);
      base := base + [view.records[view.ordered[n]]];
    }
    assert base == RecordList(view);
    var records := Evaluate(q, base, view.rules);
    if records.Failure? { return Failure(EvaluationFailed); }
    EffectiveWellKeyed(q, base, view.rules);
    ghost var byKey := EvaluateMap(q, base, view.rules).value;
    ListingDigest(byKey);
    EmptyKeyListed(byKey);
    var digest := ComputeBaseDigest(records.value);
    if digest.None? { return Failure(DigestFailed); }
    return Success(CollectionPayload(name, view.version, view.cursor, digest.value, Sent(records.value)));
  }

  lemma EffectiveWellKeyed(q: Query, base: seq<Record>, rules: seq<Rule>)
    ensures EvaluateMap(q, base, rules).Success? ==> WellKeyed(EvaluateMap(q, base, rules).value)
  {
    BaseWellKeyed(q, base);
    LayerWellKeyed(q, "", rules, BaseMap(q, base));
    if EvaluateMap(q, base, rules).Success? && q.scope.stage != "" {
      LayerWellKeyed(q, q.scope.stage, rules, Layer(q, "", rules, BaseMap(q, base)).value);
    }
  }

  lemma EmptyKeyListed(records: map<string, Record>)
    requires WellKeyed(records)
    ensures "" in records <==> exists i :: 0 <= i < |Listing(records)| && Listing(records)[i].key == ""
  {
    var keys := Text.InOrder(records.Keys);
    forall i | 0 <= i < |keys|
      ensures keys[i] in records && Listing(records)[i].key == keys[i]
    {
      assert keys[i] in Text.Elements(keys);
    }
    if "" in records {
      assert "" in Text.Elements(keys);
      var i :| 0 <= i < |keys| && keys[i] == "";
      assert Listing(records)[i].key == "";
    }
  }

  lemma {:induction false} KnownMeaning(known: seq<Version>)
    requires GoodKnown(known)
    ensures forall n :: n in KnownByName(known) ==> exists i :: 0 <= i < |known| && Text.Trim(known[i].collection) == n
    ensures forall i :: 0 <= i < |known| ==>
              Lookup(KnownByName(known), Text.Trim(known[i].collection))
              == Some(known[i].(collection := Text.Trim(known[i].collection)))
  {
    hide Text.Trim;
    if known != [] {
      var init := known[..|known| - 1];
      assert forall i :: 0 <= i < |init| ==> init[i] == known[i];
      KnownMeaning(init);
    }
  }

  method ReadKnown(versions: seq<Version>) returns (r: Option<map<string, Version>>)
    ensures r.Some? <==> GoodKnown(versions)
    ensures r.Some? ==> r.value == KnownByName(versions)
  {
    hide Text.Trim;
    var known: map<string, Version> := map[];
    for n := 0 to |versions|
      invariant GoodKnown(versions[..n]) && known == KnownByName(versions[..n])
    {
      assert versions[..n + 1][..n] == versions[..n];
      forall i | 0 <= i < n ensures versions[..n][i] == versions[i] == versions[..n + 1][i] {}
      KnownMeaning(versions[..n]);
      var name := Text.Trim(versions[n].collection);
      if name == "" { return None; }
      if name in known {
        var i :| 0 <= i < n && Text.Trim(versions[..n][i].collection) == name;
        assert Text.Trim(versions[i].collection) == Text.Trim(versions[n].collection);
        return None;
      }
      known := known[name := versions[n].(collection := name)];
    }
    assert versions[..|versions|] == versions;
    return Some(known);
  }

  lemma {:induction false} PayloadsFailOnward(s: Snapshot, r: Request, bucket: int, known: map<string, Version>,
                                              names: seq<string>, n: nat)
    requires n <= |names| && forall i :: 0 <= i < |names| ==> ViewListed(s, names[i])
    ensures PayloadsFor(s, r, bucket, known, names[..n]).Failure? ==>
              PayloadsFor(s, r, bucket, known, names) == PayloadsFor(s, r, bucket, known, names[..n])
    decreases |names| - n
  {
    hide PayloadOf, ViewListed;
    if n == |names| {
      assert names[..n] == names;
    } else {
      assert names[..n + 1][..n] == names[..n];
      PayloadsFailOnward(s, r, bucket, known, names, n + 1);
    }
  }

  /** GetSnapshot as the service runs it. */
  method GetSnapshot(current: Option<Snapshot>, managed: string, bucketOf: (string, string) -> Option<int>,
                     request: Request)
    returns (out: Result<Response, ServeError>)
    requires current.Some? ==> AllListed(current.value)
    ensures out == Answer(current, managed, bucketOf, request)
  {
    hide Text.Trim, PayloadOf, ViewListed, GoodKnown, KnownByName;
    var r := Normalized(request);
    if managed == "" || r.consumer == "" || r.client == "" || r.region == "" || r.environment == "" {
      return Failure(Incomplete);
    }
    if r.environment != managed { return Failure(WrongEnvironment); }
    var bucket := bucketOf(r.consumer, r.client);
    if bucket.None? { return Failure(Incomplete); }
    if current.None? { return Failure(Unavailable); }
    var s := current.value;
    if s.environment != managed { return Failure(WrongEnvironment); }
    var known := ReadKnown(r.known);
    if known.None? { return Failure(BadKnown); }
    var visible := Visible(s, r.consumer);
    var names := Text.SortNames(visible);
    Text.StrictlySortedUnique(names, Text.InOrder(visible));
    VisibleListed(s, r.consumer);
    var payloads: seq<CollectionPayload>, left := [], known.value;
    for n := 0 to |names|
      invariant PayloadsFor(s, r, bucket.value, known.value, names[..n]) == Success(payloads)
      invariant forall k :: k in left <==> k in known.value && k !in names[..n]
      invariant forall k :: k in left ==> left[k] == known.value[k]
    {
      assert names[..n + 1][..n] == names[..n] && names[..n + 1] == names[..n] + [names[n]];
      PayloadsFailOnward(s, r, bucket.value, known.value, names, n + 1);
      var payload := ServeCollection(s, r, bucket.value, names[n]);
      if payload.Failure? { return Failure(payload.error); }
      NotListedBefore(names, n);
      ServedName(s, r, bucket.value, names[n]);
      if !(names[n] in left && left[names[n]].revision == payload.value.revision
           && left[names[n]].digest == payload.value.digest) {
        payloads := payloads + [payload.value];
      }
      left := left - {names[n]};
    }
    assert names[..|names|] == names;
    assert left.Keys == known.value.Keys - visible by {
      forall k ensures k in names <==> k in visible { assert k in names <==> k in Text.Elements(names); }
    }
    var deleted := Text.SortNames(left.Keys);
    Text.StrictlySortedUnique(deleted, Text.InOrder(left.Keys));
    return Success(Response(s.identity, r.region, s.environment, r.stage, bucket.value, payloads, deleted));
  }

  lemma NotListedBefore(names: seq<string>, n: nat)
    requires Text.StrictlySorted(names) && n < |names|
    ensures names[n] !in names[..n]
  {
    forall i | 0 <= i < n ensures names[i] != names[n] { Text.LessIrreflexive(names[n]); }
  }

  lemma ServedName(s: Snapshot, r: Request, bucket: int, name: string)
    requires ViewListed(s, name)
    ensures PayloadOf(s, r, bucket, name).Success? ==> PayloadOf(s, r, bucket, name).value.name == name
  {
  }
}
