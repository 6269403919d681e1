/** Ascending lists of indices. */
module SortedLists {

  ghost predicate Ascending(s: seq<nat>) {
    forall i, j :: 0 <= i < j < |s| ==> s[i] < s[j]
  }

  /** `r` is `s` with `x` put in before position `at`. */
  ghost predicate Placed<T>(s: seq<T>, at: nat, x: T, r: seq<T>) {
    && at <= |s| && |r| == |s| + 1 && r[at] == x
    && (forall i :: 0 <= i < at ==> r[i] == s[i])
    && forall i :: at < i < |r| ==> r[i] == s[i - 1]
  }

  lemma PlacedAt<T>(s: seq<T>, at: nat, x: T)
    requires at <= |s|
    ensures Placed(s, at, x, s[..at] + [x] + s[at..])
    ensures forall y :: y in s[..at] + [x] + s[at..] <==> y == x || y in s
  {
    assert s == s[..at] + s[at..];
  }

  method Insert(s: seq<nat>, x: nat) returns (r: seq<nat>)
    requires Ascending(s) && x !in s
    ensures Ascending(r) && |r| == |s| + 1 && forall y :: y in r <==> y == x || y in s
  {
    var at := 0;
    while at < |s| && s[at] < x
      invariant 0 <= at <= |s| && forall i :: 0 <= i < at ==> s[i] < x
    {
      at := at + 1;
    }
    r := s[..at] + [x] + s[at..];
    PlacedAt(s, at, x);
    PlacedAscending(s, at, x, r);
  }

  lemma PlacedAscending(s: seq<nat>, at: nat, x: nat, r: seq<nat>)
    requires Ascending(s) && x !in s && Placed(s, at, x, r) && (at < |s| ==> s[at] >= x)
    requires forall i :: 0 <= i < at ==> s[i] < x
    ensures Ascending(r)
  {
    forall i | at <= i < |s| ensures s[i] > x {
      assert s[at] in s && s[i] in s;
    }
  }

  /** A list of distinct indices, sorted. */
  method SortInts(s: seq<nat>) returns (r: seq<nat>)
    requires forall i, j :: 0 <= i < j < |s| ==> s[i] != s[j]
    ensures Ascending(r) && |r| == |s| && forall x :: x in r <==> x in s
  {
    r := [];
    for i := 0 to |s|
      invariant Ascending(r) && |r| == i && forall x :: x in r <==> x in s[..i]
    {
      assert s[..i + 1] == s[..i] + [s[i]];
      r := Insert(r, s[i]);
    }
    assert s[..|s|] == s;
  }
}
