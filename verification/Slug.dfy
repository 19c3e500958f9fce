/** Choosing the bootstrap organization's slug: the base name, or the first free `base-k`. */
module Slug {
  import opened Text

  // The k-th candidate: the base itself, then base-2, base-3, and so on.
  function Candidate(base: string, k: nat): string {
    if k == 0 then base else base + "-" + Print(k + 1)
  }

  // When the base is taken the next text tried ends in 2.
  lemma FirstCandidates(base: string)
    ensures Candidate(base, 0) == base && Candidate(base, 1) == base + "-2" && Candidate(base, 9) == base + "-10"
  {
    assert Print(2) == "2" && Print(1) == "1" && Print(10) == "10";
    assert base + "-" + "2" == base + "-2" && base + "-" + "10" == base + "-10";
  }

  lemma CandidatesDistinct(base: string, j: nat, k: nat)
    requires Candidate(base, j) == Candidate(base, k)
    ensures j == k
  {
    PrintParse(j + 1);
    PrintParse(k + 1);
    var stem := base + "-";
    if j != 0 && k != 0 {
      assert (stem + Print(j + 1))[|stem|..] == Print(j + 1);
      assert (stem + Print(k + 1))[|stem|..] == Print(k + 1);
    }
  }

  ghost function Candidates(base: string, n: nat): set<string> {
    set k: nat | k < n :: Candidate(base, k)
  }

  // Pigeonhole: n different candidates cannot all lie in a smaller set.
  lemma {:induction false} CandidatesCount(base: string, n: nat)
    ensures |Candidates(base, n)| == n
  {
    if n > 0 {
      CandidatesCount(base, n - 1);
      forall k: nat | k < n - 1
        ensures Candidate(base, k) != Candidate(base, n - 1)
      {
        if Candidate(base, k) == Candidate(base, n - 1) { CandidatesDistinct(base, k, n - 1); }
      }
      assert Candidates(base, n) == Candidates(base, n - 1) + {Candidate(base, n - 1)};
    }
  }

  lemma TakenCandidatesAreFew(base: string, n: nat, slugs: set<string>)
    requires Candidates(base, n) <= slugs
    ensures n <= |slugs|
  {
    CandidatesCount(base, n);
    assert slugs == Candidates(base, n) + (slugs - Candidates(base, n));
  }

  // The probing loop stops within one probe more than there are slugs, at the first
  // candidate nobody has.
  method UniqueSlug(base: string, slugs: set<string>) returns (slug: string, ghost k: nat)
    ensures slug == Candidate(base, k) && slug !in slugs
    ensures forall j: nat | j < k :: Candidate(base, j) in slugs
    ensures k <= |slugs|
  {
    slug := base;
    var suffix := 2;
    k := 0;
    while slug in slugs
      invariant suffix == k + 2 && slug == Candidate(base, k)
      invariant forall j: nat | j < k :: Candidate(base, j) in slugs
      invariant k <= |slugs|
      decreases |slugs| - k
    {
      TakenCandidatesAreFew(base, k + 1, slugs);
      slug := base + "-" + Print(suffix);
      suffix := suffix + 1;
      k := k + 1;
    }
  }
}
