/** The stream operations of the listing pipeline (filter, skip, limit) on finite sequences. */
module Streams {

  /** The elements of s that keep accepts, in their order in s. */
  function Filter<T(==)>(keep: T -> bool, s: seq<T>): (r: seq<T>)
    ensures |r| <= |s|
    ensures forall i :: 0 <= i < |r| ==> keep(r[i])
  {
    if s == [] then [] else (if keep(s[0]) then [s[0]] else []) + Filter(keep, s[1..])
  }

  /** Filter invents nothing: every element it returns comes from s. */
  lemma {:induction false} FilterSound<T>(keep: T -> bool, s: seq<T>)
    ensures forall i :: 0 <= i < |Filter(keep, s)| ==> Filter(keep, s)[i] in s
  {
    if s != [] {
      FilterSound(keep, s[1..]);
      var r := Filter(keep, s);
      var rest := Filter(keep, s[1..]);
      forall i | 0 <= i < |r|
        ensures r[i] in s
      {
        if !keep(s[0]) {
          assert r[i] == rest[i] && rest[i] in s[1..];
        } else if i > 0 {
          assert r[i] == rest[i - 1] && rest[i - 1] in s[1..];
        }
      }
    }
  }

  /** Filter loses nothing that keep accepts. */
  lemma {:induction false} FilterComplete<T>(keep: T -> bool, s: seq<T>, i: nat)
    requires i < |s| && keep(s[i])
    ensures s[i] in Filter(keep, s)
  {
    if i > 0 {
      FilterComplete(keep, s[1..], i - 1);
    }
  }

  /** Filter returns nothing exactly when keep accepts no element. */
  lemma {:induction false} FilterEmptyIff<T>(keep: T -> bool, s: seq<T>)
    ensures Filter(keep, s) == [] <==> forall i :: 0 <= i < |s| ==> !keep(s[i])
  {
    if s != [] {
      FilterEmptyIff(keep, s[1..]);
      assert forall i :: 1 <= i < |s| ==> s[i] == s[1..][i - 1];
    }
  }

  /** Stream.skip: drops the first n elements, or all of them when there are fewer. */
  function Skip<T>(s: seq<T>, n: nat): (r: seq<T>)
    ensures |r| == if n <= |s| then |s| - n else 0
    ensures forall i :: 0 <= i < |r| ==> r[i] == s[n + i]
  {
    if n <= |s| then s[n..] else []
  }

  /** Stream.limit: keeps at most the first n elements. */
  function Limit<T>(s: seq<T>, n: nat): (r: seq<T>)
    ensures |r| == if n <= |s| then n else |s|
    ensures forall i :: 0 <= i < |r| ==> r[i] == s[i]
  {
    if n <= |s| then s[..n] else s
  }

  /** Filtering distributes over concatenation, so it keeps the relative order of what it keeps. */
  lemma {:induction false} FilterAppend<T>(keep: T -> bool, a: seq<T>, b: seq<T>)
    ensures Filter(keep, a + b) == Filter(keep, a) + Filter(keep, b)
  {
    if a == [] {
      assert a + b == b;
    } else {
      assert (a + b)[1..] == a[1..] + b;
      FilterAppend(keep, a[1..], b);
    }
  }

  /** A filter that accepts every element returns the sequence unchanged. */
  lemma {:induction false} FilterKeepsAll<T>(keep: T -> bool, s: seq<T>)
    requires forall i :: 0 <= i < |s| ==> keep(s[i])
    ensures Filter(keep, s) == s
  {
    if s != [] {
      FilterKeepsAll(keep, s[1..]);
    }
  }

  /** A filter that rejects exactly the element at position k removes just that element. */
  lemma {:induction false} FilterRemovesOne<T>(keep: T -> bool, s: seq<T>, k: nat)
    requires k < |s| && !keep(s[k])
    requires forall i :: 0 <= i < |s| && i != k ==> keep(s[i])
    ensures Filter(keep, s) == s[..k] + s[k + 1..]
  {
    var tail := s[1..];
    assert forall i :: 0 <= i < |tail| ==> tail[i] == s[i + 1];
    if k == 0 {
      FilterKeepsAll(keep, tail);
      assert s[..0] + s[1..] == tail;
    } else {
      FilterRemovesOne(keep, tail, k - 1);
      assert [s[0]] + (tail[..k - 1] + tail[k..]) == s[..k] + s[k + 1..];
    }
  }
}
