/** Any sequence of refreshes of one client against published snapshots, and what split answers can leave behind. */
module DeltaRuns {
  import opened Wrappers
  import opened Snapshot
  import opened Composition
  import opened ConfigServer
  import opened SdkClient
  import opened DeltaSync
  import Text

  ghost function Answered(out: Result<Response, ServeError>): Option<Response> {
    match out case Success(response) => Some(response) case Failure(_) => None
  }

  /** Every call of a refresh is answered from this one snapshot. */
  ghost function ServedBy(s: Snapshot, r: Request, bucket: int): Transport
    requires AllListed(s)
  {
    (known, full) => Answered(Delta(s, r.(known := known), bucket))
  }

  ghost predicate Published(codec: Codec, s: Snapshot, environment: string) {
    WellBuilt(codec, s.environment, s) && s.environment == environment && TrimmedNames(s)
    && CompleteIdentity(s.identity)
  }

  /** Every collection the client may see evaluates. */
  ghost predicate Servable(s: Snapshot, r: Request, bucket: int)
    requires AllListed(s)
  {
    forall n :: n in Visible(s, r.consumer) ==> PayloadOf(s, r, bucket, n).Success?
  }

  lemma KnownDoesNotDecide(s: Snapshot, r: Request, known: seq<Version>, bucket: int)
    requires AllListed(s) && GoodKnown(known)
    ensures Delta(s, r.(known := known), bucket).Success? <==> Servable(s, r, bucket)
  {
    hide PayloadOf, Visible, Delta;
    var with := r.(known := known);
    DeltaMeaning(s, with, bucket);
    forall n | ViewListed(s, n)
      ensures PayloadOf(s, with, bucket, n) == PayloadOf(s, r, bucket, n)
    {
      SamePayload(s, r, known, bucket, n);
    }
    forall n | n in Visible(s, r.consumer) ensures ViewListed(s, n) { VisibleIsListed(s, r.consumer, n); }
  }

  lemma SamePayload(s: Snapshot, r: Request, known: seq<Version>, bucket: int, n: string)
    requires ViewListed(s, n)
    ensures PayloadOf(s, r.(known := known), bucket, n) == PayloadOf(s, r, bucket, n)
  {
    assert QueryFor(r.(known := known), bucket, n) == QueryFor(r, bucket, n);
  }

  /** The detour over a full request after a change of instance ends with the answer a fresh start would have got. */
  lemma FetchedIsDelta(s: Snapshot, r: Request, bucket: int, before: ClientSnapshot)
    requires AllListed(s) && Consistent(before)
    ensures Fetched(ServedBy(s, r, bucket), before)
            == Answered(Delta(s, r.(known := KnownFor(s.identity, before)), bucket))
    ensures Fetched(ServedBy(s, r, bucket), before).Some? <==> Servable(s, r, bucket)
  {
    hide Delta, Servable, AllListed, GoodKnown;
    KnownOfClient(before);
    KnownForStart(s.identity, before);
    NothingKnown();
    KnownDoesNotDecide(s, r, Known(before), bucket);
    KnownDoesNotDecide(s, r, [], bucket);
    KnownDoesNotDecide(s, r, KnownFor(s.identity, before), bucket);
    if Delta(s, r.(known := Known(before)), bucket).Success? { AnswerIdentity(s, r.(known := Known(before)), bucket); }
    if before.identity.generation == 0 { NothingHeld(before); }
  }

  lemma AnswerIdentity(s: Snapshot, r: Request, bucket: int)
    requires AllListed(s) && Delta(s, r, bucket).Success?
    ensures Delta(s, r, bucket).value.identity == s.identity && Delta(s, r, bucket).value.environment == s.environment
  {
  }

  lemma NothingHeld(before: ClientSnapshot)
    requires Consistent(before) && before.identity.generation == 0
    ensures Known(before) == []
  {
    Text.NoElements(Text.InOrder(before.collections.Keys));
  }

  /**
   * One refresh against one published snapshot. It fails exactly when the snapshot cannot be served, when it is
   * older than what the client holds from the same instance, or when the callback refuses the names that change; then
   * nothing changes. Otherwise the client shows all of the snapshot.
   */
  lemma OneRefresh(codec: Codec, s: Snapshot, r: Request, bucket: int, callback: seq<string> -> bool,
                   before: ClientSnapshot)
    requires Published(codec, s, before.environment) && AllListed(s) && Consistent(before)
    ensures var (after, error) := Refreshed(ServedBy(s, r, bucket), callback, before);
            && Consistent(after) && after.environment == before.environment
            && (error == Some(TransportFailed) <==> !Servable(s, r, bucket))
            && (error == Some(BadCandidate) <==> Servable(s, r, bucket) && Regresses(s.identity, before))
            && (error == Some(CallbackRefused) <==>
                 && Servable(s, r, bucket) && !Regresses(s.identity, before)
                 && !callback(Changes(before, Offered(s, r, bucket, before))))
            && (error.Some? ==> after == before)
            && (error.None? ==> after.identity == s.identity && ClientShows(after) == ServerShows(s, r, bucket))
  {
    hide Delta, Servable, AllListed, Candidate, Acceptable, Consistent, ClientShows, ServerShows, Fetched, ServedBy,
         WellBuilt, Changes, KnownFor, CompleteIdentity;
    FetchedIsDelta(s, r, bucket, before);
    if Servable(s, r, bucket) {
      var asked := r.(known := KnownFor(s.identity, before));
      KnownForStart(s.identity, before);
      HonestAnswerAccepted(codec, s, asked, bucket, before);
      AnswerIdentity(s, asked, bucket);
      if Acceptable(Delta(s, asked, bucket).value, before) {
        DeltaEqualsFull(s, asked, bucket, before);
        NonZeroGeneration(s.identity);
        CandidateStaysConsistent(codec, s, asked, bucket, before);
        SameServed(s, r, KnownFor(s.identity, before), bucket);
        CandidateIdentity(Delta(s, asked, bucket).value, before);
      }
    }
  }

  /** What the client would hold next, given the answer for the versions it names. */
  ghost function Offered(s: Snapshot, r: Request, bucket: int, before: ClientSnapshot): ClientSnapshot
    requires AllListed(s)
  {
    match Delta(s, r.(known := KnownFor(s.identity, before)), bucket)
    case Success(answer) => Candidate(answer, before)
    case Failure(_) => before
  }

  lemma NonZeroGeneration(i: Identity)
    requires CompleteIdentity(i)
    ensures i.generation != 0
  {
  }

  lemma CandidateIdentity(response: Response, before: ClientSnapshot)
    requires Acceptable(response, before)
    ensures Candidate(response, before).identity == response.identity
    ensures Candidate(response, before).environment == before.environment
  {
  }

  lemma SameServed(s: Snapshot, r: Request, known: seq<Version>, bucket: int)
    requires AllListed(s)
    ensures ServerShows(s, r.(known := known), bucket) == ServerShows(s, r, bucket)
  {
    hide PayloadOf;
    forall n | n in Visible(s, r.consumer)
      ensures PayloadOf(s, r.(known := known), bucket, n) == PayloadOf(s, r, bucket, n)
    {
      SamePayload(s, r, known, bucket, n);
    }
  }

  // ----- any sequence of refreshes -----

  datatype Turn = Turn(snapshot: Snapshot, callback: seq<string> -> bool)

  /** The client, and the snapshot of its last successful refresh. */
  datatype Synced = Synced(client: ClientSnapshot, last: Option<Snapshot>)

  ghost predicate AllPublished(codec: Codec, environment: string, turns: seq<Turn>) {
    forall i :: 0 <= i < |turns| ==> Published(codec, turns[i].snapshot, environment) && AllListed(turns[i].snapshot)
  }

  ghost function Run(codec: Codec, environment: string, r: Request, bucket: int, none: Identity,
                     turns: seq<Turn>): Synced
    requires AllPublished(codec, environment, turns)
  {
    if turns == [] then Synced(ClientSnapshot(none, environment, map[]), None)
    else
      var before, t := Run(codec, environment, r, bucket, none, turns[..|turns| - 1]), turns[|turns| - 1];
      var (after, error) := Refreshed(ServedBy(t.snapshot, r, bucket), t.callback, before.client);
      Synced(after, if error.None? then Some(t.snapshot) else before.last)
  }

  /** After any sequence of refreshes a client shows exactly what a full answer of its last success would have shown. */
  lemma {:induction false} RunShowsLastSuccess(codec: Codec, environment: string, r: Request, bucket: int,
                                               none: Identity, turns: seq<Turn>)
    requires AllPublished(codec, environment, turns) && none.generation == 0
    ensures var done := Run(codec, environment, r, bucket, none, turns);
            && Consistent(done.client) && done.client.environment == environment
            && match done.last
               case None => ClientShows(done.client) == map[]
               case Some(s) => AllListed(s) && done.client.identity == s.identity
                               && ClientShows(done.client) == ServerShows(s, r, bucket)
  {
    hide Refreshed, ServedBy, Published, AllListed;
    if turns != [] {
      var n := |turns| - 1;
      RunShowsLastSuccess(codec, environment, r, bucket, none, turns[..n]);
      var before := Run(codec, environment, r, bucket, none, turns[..n]);
      OneRefresh(codec, turns[n].snapshot, r, bucket, turns[n].callback, before.client);
    }
  }

  // ----- calls of one refresh answered by different instances -----

  /**
   * A full answer taken as an update: everything it shows is taken over, but nothing the client holds is removed.
   * It shows what the server shows exactly when the client holds no collection that the server no longer shows.
   */
  lemma FullAnswerWithoutReset(s: Snapshot, r: Request, bucket: int, before: ClientSnapshot)
    requires AllListed(s) && r.known == [] && Delta(s, r, bucket).Success?
    requires Acceptable(Delta(s, r, bucket).value, before)
    requires !Resets(s.identity, before)
    ensures ClientShows(Candidate(Delta(s, r, bucket).value, before)) == ServerShows(s, r, bucket)
            <==> before.collections.Keys <= Visible(s, r.consumer)
  {
    hide Delta, AllListed, PayloadOf, Visible, Received, GoodPayload;
    var response := Delta(s, r, bucket).value;
    AnswerIdentity(s, r, bucket);
    NothingKnown();
    DeltaMeaning(s, r, bucket);
    var payloads := response.collections;
    var shown, served := ClientShows(Candidate(response, before)), ServerShows(s, r, bucket);
    MergedMeaning(before.collections - Text.Elements(response.deleted), payloads);
    var next := Candidate(response, before).collections;
    forall n
      ensures n in next && n !in Visible(s, r.consumer) <==> n in before.collections && n !in Visible(s, r.consumer)
    {
      if n !in Visible(s, r.consumer) {
        assert Lookup(next, n) == Lookup(before.collections - Text.Elements(response.deleted), n);
      }
    }
    forall n | n in Visible(s, r.consumer) ensures Lookup(shown, n) == Lookup(served, n) {
      VisibleIsListed(s, r.consumer, n);
      var p := PayloadOf(s, r, bucket, n).value;
      ServedName(s, r, bucket, n);
      var i :| 0 <= i < |payloads| && payloads[i] == p;
      assert Lookup(next, n) == Some(Received(p));
    }
    if before.collections.Keys <= Visible(s, r.consumer) {
      SameMap(shown, served);
    } else {
      var n :| n in before.collections && n !in Visible(s, r.consumer);
      assert n in shown && n !in served;
    }
  }

  /**
   * This happens when the two calls of one refresh reach different instances: the first answer shows a change of
   * instance, the second comes from the instance the client already follows.
   */
  lemma SplitAnswersKeepStaleCollections(first: Response, s: Snapshot, r: Request, bucket: int, before: ClientSnapshot,
                                         callback: seq<string> -> bool)
    requires AllListed(s) && r.known == [] && Delta(s, r, bucket).Success?
    requires Acceptable(Delta(s, r, bucket).value, before)
    requires before.identity.generation != 0 && before.collections != map[]
    requires !SameInstance(first.identity, before.identity) && SameInstance(s.identity, before.identity)
    requires callback(Changes(before, Candidate(Delta(s, r, bucket).value, before)))
    ensures var transport: Transport := (known, full) => if full then Answered(Delta(s, r, bucket)) else Some(first);
            && Refreshed(transport, callback, before).1.None?
            && (ClientShows(Refreshed(transport, callback, before).0) == ServerShows(s, r, bucket)
                <==> before.collections.Keys <= Visible(s, r.consumer))
  {
    hide Delta, AllListed, Acceptable, Candidate, ClientShows, ServerShows, Visible, Changes;
    var n :| n in before.collections;
    assert Text.Elements(Text.InOrder(before.collections.Keys)) == before.collections.Keys;
    assert Known(before) != [];
    FullAnswerWithoutReset(s, r, bucket, before);
  }

  // ----- version differences -----

  datatype Diff = Diff(identity: Identity, added: seq<string>, modified: seq<string>, deleted: seq<string>)

  datatype DiffError = InvalidArgument | ServeFailed(error: ServeError)

  ghost function AddedNames(response: Response, known: seq<Version>): set<string> {
    set i | 0 <= i < |response.collections|
    && response.collections[i].name !in KnownByName(known) :: response.collections[i].name
  }

  ghost function ModifiedNames(response: Response, known: seq<Version>): set<string> {
    set i | 0 <= i < |response.collections|
    && response.collections[i].name in KnownByName(known) :: response.collections[i].name
  }

  /** What a delta says about versions: the delta without its records. */
  ghost function DiffOf(response: Response, known: seq<Version>): Diff {
    Diff(response.identity, Text.InOrder(AddedNames(response, known)), Text.InOrder(ModifiedNames(response, known)),
         response.deleted)
  }

  method SplitResponse(response: Response, known: seq<Version>) returns (diff: Diff)
    requires GoodKnown(known)
    requires forall i, j :: 0 <= i < j < |response.collections| ==>
               response.collections[i].name != response.collections[j].name
    ensures diff == DiffOf(response, known)
  {
    hide GoodKnown, KnownByName;
    var names := ReadKnown(known);
    var added: set<string>, modified: set<string> := {}, {};
    for n := 0 to |response.collections|
      invariant added == set i | 0 <= i < n
                && response.collections[i].name !in KnownByName(known) :: response.collections[i].name
      invariant modified == set i | 0 <= i < n
                && response.collections[i].name in KnownByName(known) :: response.collections[i].name
    {
      if response.collections[n].name in names.value {
        modified := modified + {response.collections[n].name};
      } else {
        added := added + {response.collections[n].name};
      }
    }
    var addedNames := Text.SortNames(added);
    var modifiedNames := Text.SortNames(modified);
    Text.StrictlySortedUnique(addedNames, Text.InOrder(AddedNames(response, known)));
    Text.StrictlySortedUnique(modifiedNames, Text.InOrder(ModifiedNames(response, known)));
    return Diff(response.identity, addedNames, modifiedNames, response.deleted);
  }

  function TrimKnown(known: seq<Version>): (r: seq<Version>)
    ensures |r| == |known|
  {
    seq(|known|, i requires 0 <= i < |known| => known[i].(collection := Text.Trim(known[i].collection)))
  }

  lemma TrimmedKnownIsGood(known: seq<Version>)
    requires GoodKnown(known)
    ensures GoodKnown(TrimKnown(known))
  {
    hide Text.Trim;
    forall i | 0 <= i < |known| ensures Text.Trim(TrimKnown(known)[i].collection) == Text.Trim(known[i].collection) {
      Text.TrimIdempotent(known[i].collection);
    }
  }

  ghost function DiffAnswer(current: Option<Snapshot>, managed: string, bucketOf: (string, string) -> Option<int>,
                            request: Request): Result<Diff, DiffError>
    requires current.Some? ==> AllListed(current.value)
  {
    if !GoodKnown(request.known) then Failure(InvalidArgument)
    else match Answer(current, managed, bucketOf, request.(known := TrimKnown(request.known)))
      case Failure(error) => Failure(ServeFailed(error))
      case Success(response) => Success(DiffOf(response, request.known))
  }

  lemma AnswerNamesDiffer(current: Option<Snapshot>, managed: string, bucketOf: (string, string) -> Option<int>,
                          request: Request)
    requires (current.Some? ==> AllListed(current.value)) && GoodKnown(request.known)
    requires Answer(current, managed, bucketOf, request).Success?
    ensures var collections := Answer(current, managed, bucketOf, request).value.collections;
            forall i, j :: 0 <= i < j < |collections| ==> collections[i].name != collections[j].name
  {
    hide Delta, AllListed, Visible, PayloadOf, KnownByName, GoodKnown, Text.Trim;
    var r := Normalized(request);
    DeltaMeaning(current.value, r, bucketOf(r.consumer, r.client).value);
  }

  /** DiffVersions: its own argument check, the delta of the trimmed request, and the split. */
  method DiffVersions(current: Option<Snapshot>, managed: string, bucketOf: (string, string) -> Option<int>,
                      request: Request)
    returns (r: Result<Diff, DiffError>)
    requires current.Some? ==> AllListed(current.value)
    ensures r == DiffAnswer(current, managed, bucketOf, request)
  {
    hide Answer, GoodKnown, AllListed, DiffOf;
    var known := ReadKnown(request.known);
    if known.None? { return Failure(InvalidArgument); }
    var trimmed := request.(known := TrimKnown(request.known));
    TrimmedKnownIsGood(request.known);
    var response := GetSnapshot(current, managed, bucketOf, trimmed);
    if response.Failure? { return Failure(ServeFailed(response.error)); }
    AnswerNamesDiffer(current, managed, bucketOf, trimmed);
    var diff := SplitResponse(response.value, request.known);
    return Success(diff);
  }

  ghost predicate Outdated(s: Snapshot, r: Request, bucket: int, n: string)
    requires ViewListed(s, n)
  {
    PayloadOf(s, r, bucket, n).Success? && !UpToDate(KnownByName(r.known), PayloadOf(s, r, bucket, n).value)
  }

  /**
   * The three lists partition the differences: added is visible and unknown, modified is visible and known in
   * another version, deleted is known and not visible, and a name in none of them is unchanged or unheard of.
   */
  lemma DiffPartitions(s: Snapshot, r: Request, bucket: int, n: string)
    requires AllListed(s) && GoodKnown(r.known) && Delta(s, r, bucket).Success?
    ensures var diff, known := DiffOf(Delta(s, r, bucket).value, r.known), KnownByName(r.known);
            var visible := n in Visible(s, r.consumer);
            && (n in diff.added <==> visible && n !in known)
            && (n in diff.modified <==> visible && n in known && Outdated(s, r, bucket, n))
            && (n in diff.deleted <==> !visible && n in known)
  {
    hide Delta, AllListed, PayloadOf, Visible, KnownByName, GoodKnown;
    var response, known := Delta(s, r, bucket).value, KnownByName(r.known);
    DeltaMeaning(s, r, bucket);
    var added, modified := AddedNames(response, r.known), ModifiedNames(response, r.known);
    assert n in Text.InOrder(added) <==> n in Text.Elements(Text.InOrder(added));
    assert n in Text.InOrder(modified) <==> n in Text.Elements(Text.InOrder(modified));
    if n in Visible(s, r.consumer) {
      VisibleIsListed(s, r.consumer, n);
      ServedName(s, r, bucket, n);
      var p := PayloadOf(s, r, bucket, n).value;
      if p in response.collections {
        var i :| 0 <= i < |response.collections| && response.collections[i] == p;
        assert response.collections[i].name == n;
      }
    }
  }
}
