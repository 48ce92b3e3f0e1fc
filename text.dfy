/** The string operations the invitation resource relies on: lower-casing an
    address (String.toLowerCase), testing a prefix (String.startsWith) and
    testing for a substring (String.contains). */
module Text {

  predicate IsUpper(c: char) { 'A' <= c <= 'Z' }

  /** Maps an upper-case ASCII letter to its lower-case letter; keeps every other character. */
  function LowerChar(c: char): char
  {
    if IsUpper(c) then (c as int - 'A' as int + 'a' as int) as char else c
  }

  /** No character of s is an upper-case letter. */
  predicate IsLower(s: string)
  {
    forall i :: 0 <= i < |s| ==> !IsUpper(s[i])
  }

  /** The lower-case form of s, character by character. */
  function Lower(s: string): (r: string)
    ensures |r| == |s|
    ensures forall i :: 0 <= i < |s| ==> r[i] == LowerChar(s[i])
  {
    if s == [] then [] else [LowerChar(s[0])] + Lower(s[1..])
  }

  /** Lower-casing yields a lower-case string and is idempotent. */
  lemma LowerNormalizes(s: string)
    ensures IsLower(Lower(s))
    ensures Lower(Lower(s)) == Lower(s)
  {
  }

  /** A string is its own lower-case form exactly when it has no upper-case letter. */
  lemma LowerFixedPoint(s: string)
    ensures Lower(s) == s <==> IsLower(s)
  {
    if IsLower(s) {
      assert forall i :: 0 <= i < |s| ==> Lower(s)[i] == s[i];
    }
  }

  /** s begins with prefix, character by character. */
  predicate StartsWith(s: string, prefix: string)
    ensures StartsWith(s, prefix) <==> |prefix| <= |s| && forall i :: 0 <= i < |prefix| ==> s[i] == prefix[i]
  {
    |prefix| <= |s| && s[..|prefix|] == prefix
  }

  /** t occurs in s at index i. */
  ghost predicate OccursAt(s: string, t: string, i: int)
  {
    0 <= i && i + |t| <= |s| && s[i..i + |t|] == t
  }

  /** s contains t as a contiguous substring; the empty string is contained in every string. */
  function Contains(s: string, t: string): (found: bool)
    ensures StartsWith(s, t) ==> found
    ensures found ==> |t| <= |s|
    decreases |s|
  {
    StartsWith(s, t) || (s != [] && Contains(s[1..], t))
  }

  lemma {:induction false} ContainsHasOccurrence(s: string, t: string)
    requires Contains(s, t)
    ensures exists i :: OccursAt(s, t, i)
    decreases |s|
  {
    if StartsWith(s, t) {
      assert OccursAt(s, t, 0);
    } else {
      ContainsHasOccurrence(s[1..], t);
      var i :| OccursAt(s[1..], t, i);
      assert s[1..][i..i + |t|] == s[i + 1..i + 1 + |t|];
      assert OccursAt(s, t, i + 1);
    }
  }

  lemma {:induction false} OccurrenceIsContained(s: string, t: string, i: int)
    requires OccursAt(s, t, i)
    ensures Contains(s, t)
    decreases i
  {
    if i == 0 {
      assert s[..|t|] == s[0..0 + |t|];
    } else {
      assert s[1..][i - 1..i - 1 + |t|] == s[i..i + |t|];
      OccurrenceIsContained(s[1..], t, i - 1);
    }
  }

  /** Contains agrees with the definition of a substring by position. */
  lemma ContainsIff(s: string, t: string)
    ensures Contains(s, t) <==> exists i :: OccursAt(s, t, i)
  {
    if Contains(s, t) {
      ContainsHasOccurrence(s, t);
    }
    if exists i :: OccursAt(s, t, i) {
      var i :| OccursAt(s, t, i);
      OccurrenceIsContained(s, t, i);
    }
  }

  /** Every substring of a lower-case string is lower-case: matching is case-sensitive,
      so a term with an upper-case letter is never found in a lower-case string. */
  lemma ContainedInLowerIsLower(s: string, t: string)
    requires IsLower(s) && Contains(s, t)
    ensures IsLower(t)
  {
    ContainsHasOccurrence(s, t);
    var i :| OccursAt(s, t, i);
    forall k | 0 <= k < |t|
      ensures !IsUpper(t[k])
    {
      assert t[k] == s[i..i + |t|][k] == s[i + k];
    }
  }
}
