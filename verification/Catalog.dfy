/** Configuration records, the data comparison the release order uses, and content digests. */
module Catalog {
  import opened Wrappers

  type Data = map<string, string>

  datatype Record = Record(collection: string, environment: string, key: string, data: Data, revision: nat)

  /** SHA-256 over the canonical payload, taken as injective: the digest is the payload it hashes. */
  datatype Digest = Digest(payload: map<string, Data>)

  /** What the digest of a set of records depends on: keys and data, never revisions. */
  function Payload(records: map<string, Record>): map<string, Data> {
    map k | k in records :: records[k].data
  }

  /** A Go map read on strings: a missing key reads as the empty string. */
  function Read(data: Data, field: string): string {
    if field in data then data[field] else ""
  }

  /** Field-by-field comparison: same number of fields, and every field of `left` reads the same in `right`. */
  predicate EqualData(left: Data, right: Data) {
    |left| == |right| && forall k :: k in left ==> Read(right, k) == left[k]
  }

  /** `EqualData` accepts different data exactly when `left` has a field that `right` lacks; such a field is empty. */
  lemma EqualDataExact(left: Data, right: Data)
    ensures EqualData(left, right) ==> (left == right <==> left.Keys <= right.Keys)
    ensures EqualData(left, right) ==> forall k :: k in left.Keys - right.Keys ==> left[k] == ""
    ensures (forall k :: k in left && left[k] == "" ==> k in right) ==> (EqualData(left, right) <==> left == right)
  {
    if EqualData(left, right) && left.Keys <= right.Keys {
      SameSizeSubset(left.Keys, right.Keys);
      assert |left.Keys| == |left| == |right| == |right.Keys|;
    }
  }

  lemma {:induction false} SameSizeSubset<T>(a: set<T>, b: set<T>)
    requires a <= b
    ensures |a| == |b| ==> a == b
  {
    if a != b {
      var extra := b - a;
      assert b == a + extra;
      assert |b| == |a| + |extra|;
    }
  }

  /** The comparison is not symmetric: it can call two records equal that differ in a non-empty field. */
  lemma EqualDataNotSymmetric()
    ensures var left, right := map["code" := "x", "note" := ""], map["code" := "x", "rate" := "9"];
            EqualData(left, right) && !EqualData(right, left)
  {
    var left, right := map["code" := "x", "note" := ""], map["code" := "x", "rate" := "9"];
    assert left.Keys == {"code", "note"} && right.Keys == {"code", "rate"};
    assert |left| == |left.Keys| && |right| == |right.Keys|;
    assert "rate" in right && Read(left, "rate") == "";
  }

  /** Comparing the data of two optional records, absent only equal to absent. */
  predicate SameContent(left: Option<Record>, right: Option<Record>) {
    match (left, right)
    case (None, None) => true
    case (Some(l), Some(r)) => l.data == r.data
    case _ => false
  }
}
