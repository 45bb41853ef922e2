/** Case folding and substring search on strings, as the services use
    `toLowerCase`, `equalsIgnoreCase` and `contains`.  Only the ASCII
    letters change case. */
module Strings {

  /** `Character.toLowerCase` on the ASCII letters. */
  function LowerChar(c: char): char {
    if 'A' <= c <= 'Z' then (c as int + 32) as char else c
  }

  function Lower(s: string): (r: string)
    ensures |r| == |s| && forall i :: 0 <= i < |s| ==> r[i] == LowerChar(s[i])
  {
    seq(|s|, i requires 0 <= i < |s| => LowerChar(s[i]))
  }

  /** `String.equalsIgnoreCase`: same length and the same letters up to case. */
  predicate EqualsIgnoreCase(a: string, b: string) {
    |a| == |b| && forall i :: 0 <= i < |a| ==> LowerChar(a[i]) == LowerChar(b[i])
  }

  /** `String.trim`: every leading and trailing character up to U+0020 is
      dropped; what remains is the slice between the first and the last
      character above U+0020. */
  function Trim(s: string): (r: string)
    ensures exists i, j :: 0 <= i <= j <= |s| && r == s[i..j] && Trimmed(s, i, j)
  {
    var t := TrimStart(s);
    var r := TrimEnd(t);
    assert r == s[|s| - |t|..|s| - |t| + |r|];
    assert Trimmed(s, |s| - |t|, |s| - |t| + |r|);
    r
  }

  /** s[i..j] is what `trim` leaves of s: only characters up to U+0020 lie
      outside it, and it starts and ends above U+0020 unless it is empty. */
  predicate Trimmed(s: string, i: int, j: int)
    requires 0 <= i <= j <= |s|
  {
    && (forall k :: 0 <= k < i ==> s[k] <= ' ')
    && (forall k :: j <= k < |s| ==> s[k] <= ' ')
    && (i < j ==> s[i] > ' ' && s[j - 1] > ' ')
    && (i == j ==> forall k :: 0 <= k < |s| ==> s[k] <= ' ')
  }

  function TrimStart(s: string): (r: string)
    ensures |r| <= |s| && r == s[|s| - |r|..]
    ensures forall k :: 0 <= k < |s| - |r| ==> s[k] <= ' '
    ensures |r| > 0 ==> r[0] > ' '
  {
    if |s| > 0 && s[0] <= ' ' then TrimStart(s[1..]) else s
  }

  function TrimEnd(s: string): (r: string)
    ensures |r| <= |s| && r == s[..|r|]
    ensures forall k :: |r| <= k < |s| ==> s[k] <= ' '
    ensures |r| > 0 ==> r[|r| - 1] > ' '
  {
    if |s| > 0 && s[|s| - 1] <= ' ' then TrimEnd(s[..|s| - 1]) else s
  }

  /** The slice `trim` keeps is determined by s: there is only one. */
  lemma TrimmedUnique(s: string, i: int, j: int, i': int, j': int)
    requires 0 <= i <= j <= |s| && Trimmed(s, i, j)
    requires 0 <= i' <= j' <= |s| && Trimmed(s, i', j')
    ensures s[i..j] == s[i'..j']
  {
    if i < j && i' < j' {
      assert i == i' && j == j';
    }
  }

  /** `s.trim().isEmpty()` holds iff every character of s is at most U+0020. */
  lemma TrimEmpty(s: string)
    ensures Trim(s) == "" <==> forall k :: 0 <= k < |s| ==> s[k] <= ' '
  {
    var i, j :| 0 <= i <= j <= |s| && Trim(s) == s[i..j] && Trimmed(s, i, j);
  }

  /** Trimming twice is trimming once. */
  lemma TrimIdempotent(s: string)
    ensures Trim(Trim(s)) == Trim(s)
  {
    var t := Trim(s);
    var i, j :| 0 <= i <= j <= |s| && t == s[i..j] && Trimmed(s, i, j);
    var i', j' :| 0 <= i' <= j' <= |t| && Trim(t) == t[i'..j'] && Trimmed(t, i', j');
    assert Trimmed(t, 0, |t|);
    TrimmedUnique(t, 0, |t|, i', j');
  }

  /** p occurs in s starting at index i. */
  predicate OccursAt(s: string, p: string, i: int) {
    0 <= i && i + |p| <= |s| && s[i..i + |p|] == p
  }

  /** `s.contains(p)`, scanning the start positions left to right. */
  function Contains(s: string, p: string): (r: bool)
    ensures r <==> exists i :: OccursAt(s, p, i)
    decreases |s|
  {
    if |p| <= |s| && s[..|p|] == p then
      assert OccursAt(s, p, 0);
      true
    else if |s| == 0 then
      assert forall i :: !OccursAt(s, p, i);
      false
    else
      var r := Contains(s[1..], p);
      ShiftOccurrence(s, p);
      r
  }

  /** An occurrence in the tail is one in s shifted by one, and every
      occurrence past index 0 is one in the tail. */
  lemma ShiftOccurrence(s: string, p: string)
    requires |s| > 0
    ensures (exists i :: OccursAt(s, p, i)) <==> OccursAt(s, p, 0) || exists j :: OccursAt(s[1..], p, j)
  {
    if exists i :: OccursAt(s, p, i) {
      var i :| OccursAt(s, p, i);
      if i > 0 {
        assert s[1..][i - 1..i - 1 + |p|] == s[i..i + |p|];
        assert OccursAt(s[1..], p, i - 1);
      }
    }
    if exists j :: OccursAt(s[1..], p, j) {
      var j :| OccursAt(s[1..], p, j);
      assert s[j + 1..j + 1 + |p|] == s[1..][j..j + |p|];
      assert OccursAt(s, p, j + 1);
    }
  }
}
