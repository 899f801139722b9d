/** Identifier strings: trimming, lexicographic order, and the sorted listing of a set of names. */
module Text {
  predicate IsSpace(c: char) {
    || c == ' ' || '\t' <= c <= '\r' || c == '\U{85}' || c == '\U{a0}' || c == '\U{1680}'
    || '\U{2000}' <= c <= '\U{200a}' || c == '\U{2028}' || c == '\U{2029}'
    || c == '\U{202f}' || c == '\U{205f}' || c == '\U{3000}'
  }

  /** The string trims to the empty string. */
  predicate Blank(s: string) {
    forall i :: 0 <= i < |s| ==> IsSpace(s[i])
  }

  function TrimLeft(s: string): string {
    if s != "" && IsSpace(s[0]) then TrimLeft(s[1..]) else s
  }

  function TrimRight(s: string): string {
    if s != "" && IsSpace(s[|s| - 1]) then TrimRight(s[..|s| - 1]) else s
  }

  function Trim(s: string): string {
    TrimRight(TrimLeft(s))
  }

  lemma {:induction false} TrimRightKeepsStart(s: string)
    requires s == "" || !IsSpace(s[0])
    ensures TrimRight(s) == "" || !IsSpace(TrimRight(s)[0])
    ensures s != "" ==> TrimRight(s) != ""
    ensures TrimRight(TrimRight(s)) == TrimRight(s)
  {
    if s != "" && IsSpace(s[|s| - 1]) {
      TrimRightKeepsStart(s[..|s| - 1]);
    }
  }

  lemma {:induction false} TrimLeftStart(s: string)
    ensures TrimLeft(s) == "" || !IsSpace(TrimLeft(s)[0])
  {
    if s != "" && IsSpace(s[0]) {
      TrimLeftStart(s[1..]);
    }
  }

  /** Trimming twice is trimming once. */
  lemma TrimIdempotent(s: string)
    ensures Trim(Trim(s)) == Trim(s)
  {
    TrimLeftStart(s);
    TrimRightKeepsStart(TrimLeft(s));
  }

  /** Go's `<` on strings. */
  predicate Less(a: string, b: string) {
    b != "" && (a == "" || a[0] < b[0] || (a[0] == b[0] && Less(a[1..], b[1..])))
  }

  lemma {:induction false} LessIrreflexive(a: string)
    ensures !Less(a, a)
  {
    if a != "" {
      LessIrreflexive(a[1..]);
    }
  }

  lemma {:induction false} LessTransitive(a: string, b: string, c: string)
    requires Less(a, b) && Less(b, c)
    ensures Less(a, c)
  {
    if a != "" && a[0] == b[0] == c[0] {
      LessTransitive(a[1..], b[1..], c[1..]);
    }
  }

  lemma {:induction false} LessTotal(a: string, b: string)
    ensures a == b || Less(a, b) || Less(b, a)
  {
    if a != "" && b != "" && a[0] == b[0] {
      LessTotal(a[1..], b[1..]);
      assert a == [a[0]] + a[1..] && b == [b[0]] + b[1..];
    }
  }

  predicate StrictlySorted(names: seq<string>) {
    forall i, j :: 0 <= i < j < |names| ==> Less(names[i], names[j])
  }

  function Elements<T>(s: seq<T>): set<T> {
    set x | x in s
  }

  /** A strictly sorted list is determined by its set of elements. */
  lemma {:induction false} StrictlySortedUnique(a: seq<string>, b: seq<string>)
    requires StrictlySorted(a) && StrictlySorted(b)
    requires Elements(a) == Elements(b)
    ensures a == b
  {
    NoElements(a);
    NoElements(b);
    if a != [] {
      assert a[0] in Elements(b);
      assert b[0] in Elements(a);
      FirstIsLeast(a, b[0]);
      FirstIsLeast(b, a[0]);
      if a[0] != b[0] {
        LessTransitive(a[0], b[0], a[0]);
        LessIrreflexive(a[0]);
      }
      TailElements(a);
      TailElements(b);
      StrictlySortedUnique(a[1..], b[1..]);
      assert a == [a[0]] + a[1..] && b == [b[0]] + b[1..];
    }
  }

  lemma NoElements(a: seq<string>)
    ensures Elements(a) == {} <==> a == []
  {
    if a != [] {
      assert a[0] in Elements(a);
    }
  }

  lemma FirstIsLeast(a: seq<string>, x: string)
    requires StrictlySorted(a) && x in a
    ensures a[0] == x || Less(a[0], x)
  {
  }

  lemma TailElements(a: seq<string>)
    requires StrictlySorted(a) && a != []
    ensures Elements(a[1..]) == Elements(a) - {a[0]}
  {
    LessIrreflexive(a[0]);
    assert a == [a[0]] + a[1..];
  }

  /** Position at which `x` keeps a sorted list sorted. */
  method InsertSorted(names: seq<string>, x: string) returns (r: seq<string>)
    requires StrictlySorted(names) && x !in names
    ensures StrictlySorted(r) && Elements(r) == Elements(names) + {x}
  {
    var i := 0;
    while i < |names| && Less(names[i], x)
      invariant 0 <= i <= |names|
      invariant forall k :: 0 <= k < i ==> Less(names[k], x)
    {
      i := i + 1;
    }
    if i < |names| {
      LessTotal(names[i], x);
      forall k | i < k < |names| ensures Less(x, names[k]) {
        LessTransitive(x, names[i], names[k]);
      }
    }
    r := names[..i] + [x] + names[i..];
    assert names == names[..i] + names[i..];
  }

  /** sort.Strings over the keys of a map: every name once, in increasing order. */
  method SortNames(names: set<string>) returns (r: seq<string>)
    ensures StrictlySorted(r) && Elements(r) == names
  {
    r := [];
    var left := names;
    while left != {}
      invariant StrictlySorted(r) && Elements(r) == names - left && left <= names
      decreases left
    {
      var x :| x in left;
      assert x !in r by { assert x !in Elements(r); }
      r := InsertSorted(r, x);
      left := left - {x};
    }
  }

  lemma {:induction false} SortedListingExists(names: set<string>)
    ensures exists r :: StrictlySorted(r) && Elements(r) == names
    decreases names
  {
    if names == {} {
      var none: seq<string> := [];
      assert StrictlySorted(none) && Elements(none) == names;
    } else {
      var x := Least(names);
      SortedListingExists(names - {x});
      var r :| StrictlySorted(r) && Elements(r) == names - {x};
      forall k | 0 <= k < |r| ensures Less(x, r[k]) {
        assert r[k] in Elements(r);
      }
      var listing := [x] + r;
      assert Elements(listing) == {x} + Elements(r);
      assert StrictlySorted(listing) && Elements(listing) == names;
    }
  }

  lemma {:induction false} Least(names: set<string>) returns (x: string)
    requires names != {}
    ensures x in names && forall y :: y in names && y != x ==> Less(x, y)
    decreases names
  {
    x :| x in names;
    if names != {x} {
      var y := Least(names - {x});
      LessTotal(x, y);
      if Less(y, x) {
        x := y;
      } else {
        forall z | z in names && z != x ensures Less(x, z) {
          if z != y { LessTransitive(x, y, z); }
        }
      }
    }
  }

  /** The one sorted listing of a set of names. */
  ghost function InOrder(names: set<string>): (r: seq<string>)
    ensures StrictlySorted(r) && Elements(r) == names
  {
    SortedListingExists(names);
    var r :| StrictlySorted(r) && Elements(r) == names;
    r
  }
}
