/** Partner slugs: the first free one of `base`, `base-2`, `base-3`, … */
module Slugs {
  import opened Addresses
  import opened AddressSpelling
  import opened Sets

  /** The n-th slug tried, from 1. */
  function Candidate(base: string, n: nat): string {
    if n <= 1 then base else base + "-" + Decimal(n)
  }

  function Tried(base: string, n: nat): set<string> {
    set i | 1 <= i < n :: Candidate(base, i)
  }

  lemma DecimalsDiffer(m: nat, n: nat)
    requires m != n
    ensures Decimal(m) != Decimal(n)
  {
    DecimalRoundTrip(m);
    DecimalRoundTrip(n);
  }

  lemma CandidatesDiffer(base: string, m: nat, n: nat)
    requires 1 <= m < n
    ensures Candidate(base, m) != Candidate(base, n)
  {
    var s := Candidate(base, n);
    assert s[|base| + 1..] == Decimal(n);
    if m > 1 {
      assert Candidate(base, m)[|base| + 1..] == Decimal(m);
      DecimalsDiffer(m, n);
    }
  }

  /** No slug is tried twice, so the taken ones cannot all be tried without one being free. */
  lemma {:induction false} TriedCount(base: string, n: nat)
    requires n >= 1
    ensures |Tried(base, n)| == n - 1
  {
    if n == 1 {
      assert Tried(base, n) == {};
    } else {
      TriedCount(base, n - 1);
      forall i | 1 <= i < n - 1 ensures Candidate(base, i) != Candidate(base, n - 1) {
        CandidatesDiffer(base, i, n - 1);
      }
      assert Tried(base, n) == Tried(base, n - 1) + {Candidate(base, n - 1)};
    }
  }

  /** The first of `base`, `base-2`, `base-3`, … that is not taken, found within one try more than there are taken slugs. */
  ghost predicate FirstFree(taken: set<string>, base: string, slug: string) {
    && slug !in taken
    && (slug == base ||
        exists n | 2 <= n <= |taken| + 1 ::
          slug == base + "-" + Decimal(n) && base in taken && forall i | 2 <= i < n :: base + "-" + Decimal(i) in taken)
  }

  /** `taken` are the slugs the user's partners have. The loop ends, at the first free candidate. */
  method EnsureUniqueSlug(taken: set<string>, base: string) returns (slug: string)
    ensures FirstFree(taken, base, slug)
  {
    slug := base;
    var n := 2;
    while slug in taken
      invariant n >= 2 && slug == Candidate(base, n - 1)
      invariant forall i | 1 <= i < n - 1 :: Candidate(base, i) in taken
      invariant n - 2 <= |taken|
      decreases |taken| + 2 - n
    {
      assert Tried(base, n) <= taken;
      TriedCount(base, n);
      SubsetSize(Tried(base, n), taken);
      slug := base + "-" + Decimal(n);
      n := n + 1;
    }
    if n > 2 {
      assert Candidate(base, 1) in taken;
      forall i | 2 <= i < n - 1 ensures base + "-" + Decimal(i) in taken { assert Candidate(base, i) in taken; }
    }
  }
}
