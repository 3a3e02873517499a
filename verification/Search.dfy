/** First occurrences of a pattern in a byte string, one `char` per byte. */
module Search {

  predicate OccursAt(s: string, pat: string, i: int) {
    0 <= i && i + |pat| <= |s| && s[i..i + |pat|] == pat
  }

  // `binary:match/2`: the first occurrence, or -1.
  function Match(s: string, pat: string): (i: int)
    ensures i == -1 || OccursAt(s, pat, i)
    ensures forall j | OccursAt(s, pat, j) :: 0 <= i <= j
  {
    if |s| < |pat| then -1
    else if s[..|pat|] == pat then 0
    else if |s| == 0 then -1
    else
      var i := Match(s[1..], pat);
      assert forall j | OccursAt(s, pat, j) :: j > 0 && OccursAt(s[1..], pat, j - 1) by {
        forall j | OccursAt(s, pat, j)
          ensures j > 0 && OccursAt(s[1..], pat, j - 1)
        {
          assert j > 0;
          assert s[1..][j - 1..j - 1 + |pat|] == s[j..j + |pat|];
        }
      }
      assert i >= 0 ==> s[1..][i..i + |pat|] == s[i + 1..i + 1 + |pat|];
      if i < 0 then -1 else i + 1
  }

  // The answer is determined by being a first occurrence.
  lemma MatchUnique(s: string, pat: string, i: int)
    requires OccursAt(s, pat, i) && forall j | OccursAt(s, pat, j) :: i <= j
    ensures Match(s, pat) == i
  {
  }

  // Dropping a prefix in which no occurrence starts shifts the answer.
  lemma MatchShift(s: string, pat: string, k: nat)
    requires k <= |s| && forall i | OccursAt(s, pat, i) :: k <= i
    ensures Match(s, pat) == if Match(s[k..], pat) < 0 then -1 else k + Match(s[k..], pat)
  {
    forall i | OccursAt(s, pat, i)
      ensures OccursAt(s[k..], pat, i - k)
    {
      assert s[k..][i - k..i - k + |pat|] == s[i..i + |pat|];
    }
    var m := Match(s[k..], pat);
    if m >= 0 {
      assert s[k..][m..m + |pat|] == s[k + m..k + m + |pat|];
      assert OccursAt(s, pat, k + m);
      MatchUnique(s, pat, k + m);
    }
  }

  lemma OccursInPrefix(s: string, t: string, pat: string, i: int)
    requires i + |pat| <= |s|
    ensures OccursAt(s + t, pat, i) <==> OccursAt(s, pat, i)
  {
    if 0 <= i {
      assert (s + t)[i..i + |pat|] == s[i..i + |pat|];
    }
  }

  // Appending bytes keeps a first occurrence that is already there; one that
  // appears only with the appended bytes ends among them.
  lemma MatchExtends(s: string, t: string, pat: string)
    ensures Match(s, pat) >= 0 ==> Match(s + t, pat) == Match(s, pat)
    ensures Match(s, pat) < 0 <= Match(s + t, pat) ==> Match(s + t, pat) + |pat| > |s|
  {
    var i, j := Match(s, pat), Match(s + t, pat);
    if i >= 0 {
      OccursInPrefix(s, t, pat, i);
    }
    if j + |pat| <= |s| {
      OccursInPrefix(s, t, pat, j);
    }
  }
}
