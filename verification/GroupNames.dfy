/** Default names for imported and manual groups: a stem and the least free number. */
module GroupNames {
  import opened Decimals

  function Candidate(stem: string, n: nat): string { stem + Decimal(n) }

  lemma CandidatesDiffer(stem: string, m: nat, n: nat)
    requires Candidate(stem, m) == Candidate(stem, n)
    ensures m == n
  {
    assert Candidate(stem, m)[|stem|..] == Decimal(m);
    assert Candidate(stem, n)[|stem|..] == Decimal(n);
    DecimalIsInjective(m, n);
  }

  function Candidates(stem: string, n: nat): set<string> {
    set k | 1 <= k <= n :: Candidate(stem, k)
  }

  lemma {:induction false} CandidatesCount(stem: string, n: nat)
    ensures |Candidates(stem, n)| == n
  {
    if n == 0 {
      assert Candidates(stem, 0) == {};
    } else {
      CandidatesCount(stem, n - 1);
      assert Candidates(stem, n) == Candidates(stem, n - 1) + {Candidate(stem, n)};
      if Candidate(stem, n) in Candidates(stem, n - 1) {
        var k :| 1 <= k <= n - 1 && Candidate(stem, k) == Candidate(stem, n);
        CandidatesDiffer(stem, k, n);
      }
    }
  }

  /** More candidates than names: one is free. */
  lemma TooManyCandidates(stem: string, n: nat, names: set<string>)
    requires forall k :: 1 <= k <= n ==> Candidate(stem, k) in names
    ensures n <= |names|
  {
    CandidatesCount(stem, n);
    SubsetIsSmaller(Candidates(stem, n), names);
  }

  lemma {:induction false} SubsetIsSmaller(s: set<string>, t: set<string>)
    requires s <= t
    ensures |s| <= |t|
  {
    if s != {} {
      var x :| x in s;
      SubsetIsSmaller(s - {x}, t - {x});
    }
  }

  /**
   The name with the least number not in use. The search ends, within one more step than there
   are names, because different numbers are written differently.
   */
  method NextGroupName(stem: string, names: set<string>) returns (name: string, ghost n: nat)
    ensures name !in names && name == stem + Decimal(n)
    ensures 1 <= n <= |names| + 1
    ensures forall k :: 1 <= k < n ==> Candidate(stem, k) in names
  {
    var i := 1;
    while Candidate(stem, i) in names
      invariant 1 <= i <= |names| + 1
      invariant forall k :: 1 <= k < i ==> Candidate(stem, k) in names
      decreases |names| + 1 - i
    {
      TooManyCandidates(stem, i, names);
      i := i + 1;
    }
    return Candidate(stem, i), i;
  }
}
