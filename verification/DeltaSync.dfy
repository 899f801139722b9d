/** Delta synchronization between the Config Server and the SDK client: deltas against full answers. */
module DeltaSync {
  import opened Wrappers
  import opened Catalog
  import opened Overlay
  import opened Snapshot
  import opened Composition
  import opened ConfigServer
  import opened SdkClient
  import Text

  /** What a reader of a collection can tell: its revision, digest and record data. */
  datatype Shown = Shown(revision: nat, digest: Digest, data: map<string, Data>)

  function ClientShows(c: ClientSnapshot): map<string, Shown> {
    map n | n in c.collections :: ShownBy(c.collections[n])
  }

  function ShownBy(c: CollectionSnapshot): Shown {
    Shown(c.revision, c.digest, DataOf(c.records))
  }

  /** Everything a request that knows nothing is answered. */
  ghost function ServerShows(s: Snapshot, r: Request, bucket: int): map<string, Shown>
    requires AllListed(s)
  {
    map n | n in Visible(s, r.consumer)
    && PayloadOf(s, r, bucket, n).Success? :: ShownBy(Received(PayloadOf(s, r, bucket, n).value))
  }

  /** What an accepted sequence of answers leaves in a client. */
  ghost predicate Consistent(c: ClientSnapshot) {
    && (c.identity.generation == 0 ==> c.collections == map[])
    && forall n :: n in c.collections ==>
         n != "" && Text.Trim(n) == n && c.collections[n].digest == Digest(DataOf(c.collections[n].records))
  }

  /** Collection names are identifiers: never empty, nothing to trim. */
  predicate TrimmedNames(s: Snapshot) {
    forall n :: n in s.collections ==> n != "" && Text.Trim(n) == n
  }

  // ----- the delta -----

  lemma InVisible(s: Snapshot, consumer: string, n: string)
    ensures n in Text.InOrder(Visible(s, consumer)) <==> n in Visible(s, consumer)
  {
    assert n in Text.InOrder(Visible(s, consumer)) <==> n in Text.Elements(Text.InOrder(Visible(s, consumer)));
  }

  predicate AllServed(names: seq<string>, payloads: seq<CollectionPayload>) {
    forall i :: 0 <= i < |payloads| ==> payloads[i].name in names
  }

  lemma {:induction false} PayloadsMeaning(s: Snapshot, r: Request, bucket: int, known: map<string, Version>,
                                           names: seq<string>)
    requires forall i :: 0 <= i < |names| ==> ViewListed(s, names[i])
    requires Text.StrictlySorted(names)
    ensures PayloadsFor(s, r, bucket, known, names).Success? <==>
              forall i :: 0 <= i < |names| ==> PayloadOf(s, r, bucket, names[i]).Success?
    ensures PayloadsFor(s, r, bucket, known, names).Success? ==>
              var payloads := PayloadsFor(s, r, bucket, known, names).value;
              && AllServed(names, payloads)
              && (forall i :: 0 <= i < |payloads| ==>
                   ViewListed(s, payloads[i].name)
                   && PayloadOf(s, r, bucket, payloads[i].name) == Success(payloads[i])
                      && !UpToDate(known, payloads[i]))
              && (forall i :: 0 <= i < |names| && !UpToDate(known, PayloadOf(s, r, bucket, names[i]).value) ==>
                    PayloadOf(s, r, bucket, names[i]).value in payloads)
              && (forall i, j :: 0 <= i < j < |payloads| ==> payloads[i].name != payloads[j].name)
  {
    hide PayloadOf, ViewListed, UpToDate;
    if names != [] {
      var n := |names| - 1;
      var init := names[..n];
      assert forall i :: 0 <= i < n ==> init[i] == names[i];
      PayloadsMeaning(s, r, bucket, known, init);
      ServedName(s, r, bucket, names[n]);
      NotListedBefore(names, n);
    }
  }

  /**
   * The delta lists, once each, exactly the visible collections the client does not hold in this version, and deletes
   * the rest of what it holds.
   */
  lemma DeltaMeaning(s: Snapshot, r: Request, bucket: int)
    requires AllListed(s) && GoodKnown(r.known)
    ensures Delta(s, r, bucket).Success? <==>
              forall n :: n in Visible(s, r.consumer) ==> PayloadOf(s, r, bucket, n).Success?
    ensures Delta(s, r, bucket).Success? ==>
              var response, known := Delta(s, r, bucket).value, KnownByName(r.known);
              && response.identity == s.identity && response.environment == s.environment
              && (forall i :: 0 <= i < |response.collections| ==>
                   && response.collections[i].name in Visible(s, r.consumer)
                   && PayloadOf(s, r, bucket, response.collections[i].name) == Success(response.collections[i])
                   && !UpToDate(known, response.collections[i]))
              && (forall n :: n in Visible(s, r.consumer) && !UpToDate(known, PayloadOf(s, r, bucket, n).value) ==>
                   PayloadOf(s, r, bucket, n).value in response.collections)
              && (forall i, j :: 0 <= i < j < |response.collections| ==>
                    response.collections[i].name != response.collections[j].name)
              && (forall n :: n in response.deleted <==> n in known && n !in Visible(s, r.consumer))
              && Text.StrictlySorted(response.deleted)
  {
    hide PayloadOf, Visible, UpToDate, KnownByName, GoodKnown;
    var names := Text.InOrder(Visible(s, r.consumer));
    VisibleListed(s, r.consumer);
    PayloadsMeaning(s, r, bucket, KnownByName(r.known), names);
    forall n ensures n in names <==> n in Visible(s, r.consumer) { InVisible(s, r.consumer, n); }
    forall n | n in Visible(s, r.consumer) ensures exists i :: 0 <= i < |names| && names[i] == n { assert n in names; }
    var gone := KnownByName(r.known).Keys - Visible(s, r.consumer);
    forall n
      ensures n in Text.InOrder(gone) <==> n in gone
    {
      assert n in Text.InOrder(gone) <==> n in Text.Elements(Text.InOrder(gone));
    }
  }

  // ----- what the client tells the server -----

  lemma KnownOfClient(c: ClientSnapshot)
    requires Consistent(c)
    ensures GoodKnown(Known(c))
    ensures KnownByName(Known(c)).Keys == c.collections.Keys
    ensures forall n :: n in c.collections ==>
              KnownByName(Known(c))[n] == Version(n, c.collections[n].revision, c.collections[n].digest)
  {
    hide Text.Trim;
    var names, known := Text.InOrder(c.collections.Keys), Known(c);
    forall i | 0 <= i < |names|
      ensures names[i] in c.collections
      ensures known[i] == Version(names[i], c.collections[names[i]].revision, c.collections[names[i]].digest)
      ensures Text.Trim(known[i].collection) == names[i] != ""
    {
      assert names[i] in Text.Elements(names);
    }
    forall i, j | 0 <= i < j < |names| ensures names[i] != names[j] { Text.LessIrreflexive(names[i]); }
    KnownMeaning(known);
    forall n | n in c.collections
      ensures n in KnownByName(known)
      ensures KnownByName(known)[n] == Version(n, c.collections[n].revision, c.collections[n].digest)
    {
      assert n in Text.Elements(names);
      var i :| 0 <= i < |names| && names[i] == n;
      assert Lookup(KnownByName(known), Text.Trim(known[i].collection)) == Some(known[i]);
    }
    forall n | n in KnownByName(known) ensures n in c.collections {
      var i :| 0 <= i < |known| && Text.Trim(known[i].collection) == n;
    }
  }

  /** The versions a refresh is answered against: none after a reset, else all that the client holds. */
  ghost function KnownFor(identity: Identity, before: ClientSnapshot): seq<Version> {
    if Resets(identity, before) then [] else Known(before)
  }

  ghost function StartOf(identity: Identity, before: ClientSnapshot): map<string, CollectionSnapshot> {
    if Resets(identity, before) then map[] else before.collections
  }

  lemma KnownForStart(identity: Identity, before: ClientSnapshot)
    requires Consistent(before)
    ensures GoodKnown(KnownFor(identity, before))
    ensures var known, start := KnownByName(KnownFor(identity, before)), StartOf(identity, before);
            known.Keys == start.Keys && forall n :: n in start ==>
              known[n] == Version(n, start[n].revision, start[n].digest)
  {
    KnownOfClient(before);
  }

  // ----- a delta equals a full answer -----

  lemma SentData(records: map<string, Record>)
    requires WellKeyed(records)
    ensures DistinctKeys(Sent(Listing(records))) && DataOf(SentByKey(Sent(Listing(records)))) == Payload(records)
    ensures forall i :: 0 <= i < |Listing(records)| ==>
              Listing(records)[i].key in records && records[Listing(records)[i].key] == Listing(records)[i]
  {
    var keys, listing := Text.InOrder(records.Keys), Listing(records);
    var sent := Sent(listing);
    forall i | 0 <= i < |keys| ensures keys[i] in records && listing[i] == records[keys[i]] && sent[i].key == keys[i]
    && listing[i].key == keys[i] {
      assert keys[i] in Text.Elements(keys);
    }
    forall i, j | 0 <= i < j < |keys| ensures sent[i].key != sent[j].key { Text.LessIrreflexive(keys[i]); }
    SentMeaning(sent);
    forall k | k in records ensures k in SentByKey(sent) && SentByKey(sent)[k].data == records[k].data {
      assert k in Text.Elements(keys);
      var i :| 0 <= i < |keys| && keys[i] == k;
      assert Lookup(SentByKey(sent), sent[i].key) == Some(sent[i]);
    }
    forall k | k in SentByKey(sent) ensures k in records {
      var i :| 0 <= i < |sent| && sent[i].key == k;
    }
  }

  /** A payload's digest is the digest of the data it carries. */
  lemma PayloadDigest(s: Snapshot, r: Request, bucket: int, n: string)
    requires ViewListed(s, n) && PayloadOf(s, r, bucket, n).Success?
    ensures var p := PayloadOf(s, r, bucket, n).value;
            p.name == n && DistinctKeys(p.records) && p.digest == Digest(DataOf(SentByKey(p.records)))
  {
    hide EvaluateMap, RecordList, WellKeyed;
    var q, view := QueryFor(r, bucket, n), s.collections[n];
    EffectiveWellKeyed(q, RecordList(view), view.rules);
    SentData(EvaluateMap(q, RecordList(view), view.rules).value);
  }

  lemma VisibleIsListed(s: Snapshot, consumer: string, n: string)
    requires AllListed(s) && n in Visible(s, consumer)
    ensures ViewListed(s, n)
  {
  }

  /** A visible collection after the delta: received just now, or held in this very version. */
  lemma VisibleAfterDelta(s: Snapshot, r: Request, bucket: int, before: ClientSnapshot, n: string)
    requires AllListed(s) && Consistent(before) && r.known == KnownFor(s.identity, before)
    requires Delta(s, r, bucket).Success?
    requires GoodPayloads(Delta(s, r, bucket).value.collections, Delta(s, r, bucket).value.deleted)
    requires n in Visible(s, r.consumer)
    ensures ViewListed(s, n) && PayloadOf(s, r, bucket, n).Success?
    ensures var next := Candidate(Delta(s, r, bucket).value, before).collections;
            n in next && ShownBy(next[n]) == ShownBy(Received(PayloadOf(s, r, bucket, n).value))
  {
    hide PayloadOf, Visible, Known, GoodPayload, Text.Trim, KnownByName, GoodKnown, Delta, AllListed, ViewListed,
         SentByKey;
    VisibleIsListed(s, r.consumer, n);
    var response, start := Delta(s, r, bucket).value, StartOf(s.identity, before);
    KnownForStart(s.identity, before);
    DeltaMeaning(s, r, bucket);
    var payloads, kept := response.collections, start - Text.Elements(response.deleted);
    MergedMeaning(kept, payloads);
    var p := PayloadOf(s, r, bucket, n).value;
    PayloadDigest(s, r, bucket, n);
    if p in payloads {
      var i :| 0 <= i < |payloads| && payloads[i] == p;
      assert Lookup(Merged(kept, payloads), n) == Some(Received(p));
    } else {
      assert UpToDate(KnownByName(r.known), p);
      forall i | 0 <= i < |payloads| ensures payloads[i].name != n { assert payloads[i] in payloads; }
      assert n in kept && Lookup(Merged(kept, payloads), n) == Some(start[n]);
    }
  }

  lemma HiddenAfterDelta(s: Snapshot, r: Request, bucket: int, before: ClientSnapshot, n: string)
    requires AllListed(s) && Consistent(before) && r.known == KnownFor(s.identity, before)
    requires Delta(s, r, bucket).Success?
    requires GoodPayloads(Delta(s, r, bucket).value.collections, Delta(s, r, bucket).value.deleted)
    requires n !in Visible(s, r.consumer)
    ensures n !in Candidate(Delta(s, r, bucket).value, before).collections
  {
    hide PayloadOf, Visible, Known, GoodPayload, Text.Trim, KnownByName, GoodKnown, Delta, AllListed;
    var response, start := Delta(s, r, bucket).value, StartOf(s.identity, before);
    KnownForStart(s.identity, before);
    DeltaMeaning(s, r, bucket);
    var payloads, kept := response.collections, start - Text.Elements(response.deleted);
    MergedMeaning(kept, payloads);
    assert n !in kept && Lookup(Merged(kept, payloads), n) == Lookup(kept, n);
  }

  lemma ShownAfterDelta(s: Snapshot, r: Request, bucket: int, before: ClientSnapshot, n: string)
    requires AllListed(s) && Consistent(before) && r.known == KnownFor(s.identity, before)
    requires Delta(s, r, bucket).Success?
    requires GoodPayloads(Delta(s, r, bucket).value.collections, Delta(s, r, bucket).value.deleted)
    ensures Lookup(ClientShows(Candidate(Delta(s, r, bucket).value, before)), n) == Lookup(ServerShows(s, r, bucket), n)
  {
    hide PayloadOf, Visible, GoodPayloads, Delta, AllListed, Candidate, Consistent;
    if n in Visible(s, r.consumer) {
      VisibleAfterDelta(s, r, bucket, before, n);
    } else {
      HiddenAfterDelta(s, r, bucket, before, n);
    }
  }

  lemma SameMap<V>(a: map<string, V>, b: map<string, V>)
    requires forall n :: Lookup(a, n) == Lookup(b, n)
    ensures a == b
  {
    forall n ensures n in a <==> n in b { assert Lookup(a, n) == Lookup(b, n); }
    forall n | n in a ensures a[n] == b[n] { assert Lookup(a, n) == Lookup(b, n); }
    assert a.Keys == b.Keys;
  }

  /** An accepted delta leaves the client with exactly what a request that knows nothing would have been answered. */
  lemma DeltaEqualsFull(s: Snapshot, r: Request, bucket: int, before: ClientSnapshot)
    requires AllListed(s) && Consistent(before) && r.known == KnownFor(s.identity, before)
    requires Delta(s, r, bucket).Success? && Acceptable(Delta(s, r, bucket).value, before)
    ensures ClientShows(Candidate(Delta(s, r, bucket).value, before)) == ServerShows(s, r, bucket)
  {
    hide Delta, ServerShows, ClientShows, Candidate, Consistent, KnownFor, GoodPayloads, AllListed;
    forall n ensures Lookup(ClientShows(Candidate(Delta(s, r, bucket).value, before)), n)
    == Lookup(ServerShows(s, r, bucket), n) {
      ShownAfterDelta(s, r, bucket, before, n);
    }
    SameMap(ClientShows(Candidate(Delta(s, r, bucket).value, before)), ServerShows(s, r, bucket));
  }

  // ----- no honest response is refused -----

  predicate WithinRevision(records: map<string, Record>, version: nat) {
    forall k :: k in records ==> 0 < records[k].revision <= version
  }

  lemma {:induction false} LayerWithinRevision(q: Query, stage: string, rules: seq<Rule>, records: map<string, Record>,
                                               version: nat)
    requires WithinRevision(records, version) && Layer(q, stage, rules, records).Success?
    requires forall i :: 0 <= i < |rules| ==> 0 < rules[i].revision <= version
    ensures WithinRevision(Layer(q, stage, rules, records).value, version)
  {
    if rules != [] {
      LayerWithinRevision(q, stage, rules[..|rules| - 1], records, version);
    }
  }

  lemma {:induction false} BaseWithinRevision(q: Query, base: seq<Record>, version: nat)
    requires forall i :: 0 <= i < |base| ==> 0 < base[i].revision <= version
    ensures WithinRevision(BaseMap(q, base), version)
  {
    if base != [] { BaseWithinRevision(q, base[..|base| - 1], version); }
  }

  lemma EffectiveWithinRevision(codec: Codec, s: Snapshot, r: Request, bucket: int, n: string)
    requires WellBuilt(codec, s.environment, s) && n in s.collections && ViewListed(s, n)
    requires Effective(s, r, bucket, n).Success?
    ensures s.collections[n].version > 0
    ensures WithinRevision(Effective(s, r, bucket, n).value, s.collections[n].version)
  {
    hide OptionsResolve, AuthorizedOf, WithinRevision, ApplyRule;
    var view, q := s.collections[n], QueryFor(r, bucket, n);
    assert GoodView(codec, s.environment, n, view);
    var base := RecordList(view);
    forall i | 0 <= i < |base| ensures 0 < base[i].revision <= view.version {
      assert view.ordered[i] in Text.Elements(view.ordered);
      assert GoodRecord(codec, s.environment, view, view.ordered[i]);
    }
    forall i | 0 <= i < |view.rules| ensures 0 < view.rules[i].revision <= view.version {
      assert AcceptsRule(s.environment, n, view.version, view.rules[i]);
    }
    BaseWithinRevision(q, base, view.version);
    LayerWithinRevision(q, "", view.rules, BaseMap(q, base), view.version);
    if q.scope.stage != "" {
      LayerWithinRevision(q, q.scope.stage, view.rules, Layer(q, "", view.rules, BaseMap(q, base)).value, view.version);
    }
  }

  lemma HonestPayload(codec: Codec, s: Snapshot, r: Request, bucket: int, n: string)
    requires WellBuilt(codec, s.environment, s) && TrimmedNames(s) && n in s.collections && ViewListed(s, n)
    requires PayloadOf(s, r, bucket, n).Success?
    ensures GoodPayload(PayloadOf(s, r, bucket, n).value)
  {
    hide EvaluateMap, RecordList, OptionsResolve, AuthorizedOf, WellKeyed, WellBuilt, Text.Trim;
    var view, q := s.collections[n], QueryFor(r, bucket, n);
    var p, records := PayloadOf(s, r, bucket, n).value, Effective(s, r, bucket, n).value;
    PayloadDigest(s, r, bucket, n);
    EffectiveWithinRevision(codec, s, r, bucket, n);
    EffectiveWellKeyed(q, RecordList(view), view.rules);
    SentData(records);
    forall i | 0 <= i < |p.records| ensures p.records[i].key != "" && 0 < p.records[i].revision <= p.revision {
      assert Listing(records)[i].key in records;
    }
  }

  lemma WellBuiltIsListed(codec: Codec, s: Snapshot)
    requires WellBuilt(codec, s.environment, s)
    ensures AllListed(s)
  {
    hide OptionsResolve, AuthorizedOf, GoodRecord;
    forall n | n in s.collections
      ensures ViewListed(s, n)
    {
      assert GoodView(codec, s.environment, n, s.collections[n]);
    }
  }

  /**
   * Whatever a client holds from earlier answers, the answer of a published snapshot passes every check of the
   * candidate, unless the snapshot is older than what this client has from the same server instance.
   */
  lemma HonestAnswerAccepted(codec: Codec, s: Snapshot, r: Request, bucket: int, before: ClientSnapshot)
    requires WellBuilt(codec, s.environment, s) && TrimmedNames(s) && CompleteIdentity(s.identity)
    requires Consistent(before) && (r.known == KnownFor(s.identity, before) || r.known == [])
    requires AllListed(s) && Delta(s, r, bucket).Success?
    ensures Acceptable(Delta(s, r, bucket).value, before) <==>
              s.environment == before.environment && !Regresses(s.identity, before)
  {
    hide PayloadOf, WellBuilt, Known, GoodPayload, Text.Trim, KnownByName, GoodKnown, Delta, CompleteIdentity;
    var response := Delta(s, r, bucket).value;
    KnownForStart(s.identity, before);
    NothingKnown();
    DeltaMeaning(s, r, bucket);
    forall i | 0 <= i < |response.collections|
      ensures GoodPayload(response.collections[i]) && response.collections[i].name !in response.deleted
    {
      HonestPayload(codec, s, r, bucket, response.collections[i].name);
    }
    forall i | 0 <= i < |response.deleted| ensures Text.Trim(response.deleted[i]) != "" {
      assert response.deleted[i] in response.deleted;
    }
    forall i, j | 0 <= i < j < |response.deleted| ensures response.deleted[i] != response.deleted[j] {
      Text.LessIrreflexive(response.deleted[i]);
    }
  }

  lemma NothingKnown()
    ensures GoodKnown([]) && KnownByName([]) == map[]
  {
  }

  lemma {:induction false} CandidateStaysConsistent(codec: Codec, s: Snapshot, r: Request, bucket: int,
                                                    before: ClientSnapshot)
    requires AllListed(s) && TrimmedNames(s) && s.identity.generation != 0
    requires Consistent(before) && GoodKnown(r.known) && Delta(s, r, bucket).Success?
    requires Acceptable(Delta(s, r, bucket).value, before)
    ensures Consistent(Candidate(Delta(s, r, bucket).value, before))
  {
    hide PayloadOf, Text.Trim, KnownByName, GoodKnown, Delta, CompleteIdentity;
    var response := Delta(s, r, bucket).value;
    DeltaMeaning(s, r, bucket);
    var start := StartOf(s.identity, before);
    var kept, payloads := start - Text.Elements(response.deleted), response.collections;
    MergedMeaning(kept, payloads);
    var next := Candidate(response, before).collections;
    forall n | n in next ensures n != "" && Text.Trim(n) == n && next[n].digest == Digest(DataOf(next[n].records)) {
      if i :| 0 <= i < |payloads| && payloads[i].name == n {
        assert Lookup(next, n) == Some(Received(payloads[i]));
        assert GoodPayload(payloads[i]);
      } else {
        assert Lookup(next, n) == Lookup(kept, n);
      }
    }
  }
}
