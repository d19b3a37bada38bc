/** Unique slugs (apps/events/services.py, lines 72-84, and
    apps/system_admin/services/category_services.py, lines 56-67): the same loop with limits 280
    and 140. `slugify` itself is not part of this model: the base slug is given. */
module Slug {
  import opened Text

  const EVENT_LIMIT: nat := 280
  const CATEGORY_LIMIT: nat := 140

  /** The slug tried in round `k`: the truncated base, from round 2 on with "-k" made to fit. */
  function Candidate(base: string, limit: nat, k: nat): string
    requires k >= 1
  {
    if k == 1 then Upto(base, limit)
    else
      var suffix := "-" + Decimal(k);
      Upto(base, limit - |suffix|) + suffix
  }

  /** The first candidate is as much of the base as fits; a later one ends in its number and keeps as much
      of the base as fits before it. */
  lemma {:induction false} CandidateKeeps(base: string, limit: nat, k: nat)
    requires k >= 1
    ensures var c := Candidate(base, limit, k); var suffix := if k == 1 then "" else "-" + Decimal(k);
      |suffix| <= limit ==>
        && suffix == c[|c| - |suffix|..] && c[..|c| - |suffix|] <= base
        && |c| == if |base| + |suffix| <= limit then |base| + |suffix| else limit
  {
  }

  lemma {:induction false} CandidatesDiffer(base: string, limit: nat, j: nat, k: nat)
    requires 2 <= j && 2 <= k && Candidate(base, limit, j) == Candidate(base, limit, k)
    ensures j == k
  {
    var p, q := Upto(base, limit - |"-" + Decimal(j)|), Upto(base, limit - |"-" + Decimal(k)|);
    assert p + "-" + Decimal(j) == Candidate(base, limit, j);
    assert q + "-" + Decimal(k) == Candidate(base, limit, k);
    DashSuffixInjective(p, j, q, k);
  }

  /** Pigeonhole: rounds 2 to n-1 all tried taken slugs, each another one. */
  lemma {:induction false} RoundsAreBounded(base: string, limit: nat, n: nat, taken: set<string>)
    requires n >= 2 && forall k | 2 <= k < n :: Candidate(base, limit, k) in taken
    ensures n - 2 <= |taken|
  {
    if n > 2 {
      var last := Candidate(base, limit, n - 1);
      forall k | 2 <= k < n - 1 ensures Candidate(base, limit, k) in taken - {last} {
        if Candidate(base, limit, k) == last { CandidatesDiffer(base, limit, k, n - 1); }
      }
      RoundsAreBounded(base, limit, n - 1, taken - {last});
    }
  }

  lemma {:induction false} CandidateFits(base: string, limit: nat, k: nat)
    requires k >= 1
    ensures |Candidate(base, limit, k)| <= limit <==> k == 1 || 1 + |Decimal(k)| <= limit
  {
  }

  /** The loop ends after at most |taken| + 1 rounds beyond the first try, with the first free
      candidate. It fits the limit exactly when its suffix does. */
  method BuildUnique(base: string, limit: nat, taken: set<string>) returns (slug: string, suffix: nat)
    ensures slug !in taken
    ensures 1 <= suffix <= |taken| + 2 && slug == Candidate(base, limit, suffix)
    ensures forall k | 1 <= k < suffix :: Candidate(base, limit, k) in taken
    ensures |slug| <= limit <==> suffix == 1 || 1 + |Decimal(suffix)| <= limit
  {
    slug := Upto(base, limit);
    suffix := 1;
    while slug in taken
      invariant 1 <= suffix && slug == Candidate(base, limit, suffix)
      invariant forall k | 1 <= k < suffix :: Candidate(base, limit, k) in taken
      invariant suffix <= |taken| + 2
      decreases |taken| + 2 - suffix
    {
      RoundsAreBounded(base, limit, suffix + 1, taken);
      suffix := suffix + 1;
      var suffixText := "-" + Decimal(suffix);
      slug := Upto(base, limit - |suffixText|) + suffixText;
    }
    CandidateFits(base, limit, suffix);
  }

  /** As long as the number of taken slugs leaves room for its digits, every slug fits. */
  lemma {:induction false} SlugFits(base: string, limit: nat, taken: set<string>, suffix: nat)
    requires 1 <= suffix <= |taken| + 2 && 1 + |Decimal(|taken| + 2)| <= limit
    ensures |Candidate(base, limit, suffix)| <= limit
  {
    DecimalLengthMonotone(suffix, |taken| + 2);
    CandidateFits(base, limit, suffix);
  }

  /** Rounds 2 to n + 1 of a base. */
  function Rounds(base: string, limit: nat, n: nat): set<string> {
    set k | 2 <= k < n + 2 :: Candidate(base, limit, k)
  }

  lemma {:induction false} NextRoundIsNew(base: string, limit: nat, n: nat)
    ensures Candidate(base, limit, n + 2) !in Rounds(base, limit, n)
    ensures Rounds(base, limit, n + 1) == Rounds(base, limit, n) + {Candidate(base, limit, n + 2)}
  {
    hide Candidate;
    forall k | 2 <= k < n + 2 ensures Candidate(base, limit, k) != Candidate(base, limit, n + 2) {
      if Candidate(base, limit, k) == Candidate(base, limit, n + 2) { CandidatesDiffer(base, limit, k, n + 2); }
    }
  }

  lemma {:induction false} RoundsCount(base: string, limit: nat, n: nat)
    ensures |Rounds(base, limit, n)| == n
  {
    hide Candidate;
    if n > 0 {
      RoundsCount(base, limit, n - 1);
      NextRoundIsNew(base, limit, n - 1);
    } else {
      assert Rounds(base, limit, 0) == {};
    }
  }

  /** The bound on the rounds is the best, for every number of taken slugs: a base that fills the limit
      and ends in "-2" is its own second candidate, so `n` taken slugs can cost n + 1 tries in vain. */
  lemma {:induction false} RoundsBoundReached(prefix: string, n: nat)
    requires n >= 1
    ensures var base := prefix + "-2"; var limit := |base|; var taken := Rounds(base, limit, n);
      && |taken| == n
      && (forall k | 1 <= k < n + 2 :: Candidate(base, limit, k) in taken)
      && Candidate(base, limit, n + 2) !in taken
  {
    var base := prefix + "-2";
    var limit := |base|;
    RoundsCount(base, limit, n);
    NextRoundIsNew(base, limit, n);
    assert Decimal(2) == "2" && "-" + "2" == "-2";
    assert Upto(base, limit - 2) == prefix;
    assert Candidate(base, limit, 2) == base == Candidate(base, limit, 1);
  }

  /** An event whose title leaves no base gets a random slug that nothing checks: it is free exactly
      when there was a base or the random slug happened to be. */
  method BuildEventSlug(base: string, random: string, taken: set<string>) returns (slug: string)
    ensures slug !in taken <==> base != "" || random !in taken
    ensures base != "" && 1 + |Decimal(|taken| + 2)| <= 280 ==> |slug| <= 280
    ensures base != "" && Upto(base, 280) !in taken ==> slug == Upto(base, 280)
    ensures base == "" ==> slug == random
  {
    if base == "" {
      return random;
    }
    var suffix;
    slug, suffix := BuildUnique(base, EVENT_LIMIT, taken);
    if 1 + |Decimal(|taken| + 2)| <= EVENT_LIMIT {
      SlugFits(base, EVENT_LIMIT, taken, suffix);
    }
    assert suffix > 1 ==> Candidate(base, EVENT_LIMIT, 1) in taken;
  }

  /** A category without a base is refused. */
  method BuildCategorySlug(base: string, taken: set<string>) returns (slug: Option<string>)
    ensures slug.None? <==> base == ""
    ensures slug.Some? ==> slug.value !in taken
    ensures slug.Some? && 1 + |Decimal(|taken| + 2)| <= 140 ==> |slug.value| <= 140
    ensures base != "" && Upto(base, 140) !in taken ==> slug == Some(Upto(base, 140))
  {
    if base == "" {
      return None;
    }
    var free, suffix := BuildUnique(base, CATEGORY_LIMIT, taken);
    if 1 + |Decimal(|taken| + 2)| <= CATEGORY_LIMIT {
      SlugFits(base, CATEGORY_LIMIT, taken, suffix);
    }
    assert suffix > 1 ==> Candidate(base, CATEGORY_LIMIT, 1) in taken;
    slug := Some(free);
  }
}
