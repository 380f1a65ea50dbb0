/**
 * The PhosphoRS random-match probability p (getp), the binomial score of a
 * profile (getPhosphoRsScoreP) and the bounded cache of binomial
 * distributions it consults (addDistributionToCache).
 */
module Scoring {

  import opened Outcomes
  import opened Sorting
  import opened Spectra

  /** 10 to the power n, for any integer n. */
  function Pow10(n: int): (r: real)
    ensures r > 0.0
    decreases if n < 0 then -n else n
  {
    if n == 0 then 1.0 else if n > 0 then 10.0 * Pow10(n - 1) else Pow10(n + 1) / 10.0
  }

  /** `x` rounded down to `nDecimals` decimal places, exactly. */
  function FloorDecimal(x: real, nDecimals: int): real {
    FloorToScale(x, Pow10(nDecimals))
  }

  /** `x` rounded down to a multiple of 1/s. */
  function FloorToScale(x: real, s: real): real
    requires s > 0.0
  {
    ((x * s).Floor as real) / s
  }

  /** Rounding down loses less than one unit of the last kept decimal place, and never goes below 0 for x >= 0. */
  lemma FloorDecimalBounds(x: real, nDecimals: int)
    ensures FloorDecimal(x, nDecimals) <= x
    ensures FloorDecimal(x, nDecimals) > x - 1.0 / Pow10(nDecimals)
    ensures x >= 0.0 ==> FloorDecimal(x, nDecimals) >= 0.0
  {
    FloorScaledBounds(x, Pow10(nDecimals));
  }

  lemma FloorScaledBounds(x: real, s: real)
    requires s > 0.0
    ensures FloorToScale(x, s) <= x
    ensures FloorToScale(x, s) > x - 1.0 / s
    ensures x >= 0.0 ==> FloorToScale(x, s) >= 0.0
  {
    var y := x * s;
    var f := y.Floor as real;
    MulDivCancel(x, s);
    DivLe(f, y, s);
    DivLt(y, f + 1.0, s);
    DivAdd(f, 1.0, s);
    if x >= 0.0 {
      MulNonNegative(x, s);
      DivLe(0.0, f, s);
    }
  }

  lemma MulDivCancel(x: real, s: real)
    requires s > 0.0
    ensures (x * s) / s == x
  {
  }

  lemma DivAdd(a: real, b: real, s: real)
    requires s > 0.0
    ensures (a + b) / s == a / s + b / s
  {
  }

  lemma MulNonNegative(x: real, s: real)
    requires x >= 0.0 && s > 0.0
    ensures x * s >= 0.0
  {
  }

  lemma DivLe(a: real, b: real, s: real)
    requires s > 0.0 && a <= b
    ensures a / s <= b / s
  {
  }

  lemma DivLt(a: real, b: real, s: real)
    requires s > 0.0 && a < b
    ensures a / s < b / s
  {
  }

  /**
   * getp for a spectrum of `peakCount` peaks: the chance d·N/w, capped at 1,
   * that a computed fragment matches one of N peaks spread over an m/z range
   * w with tolerance d, rounded down to `nDecimals` decimal places.
   */
  function Getp(peakCount: nat, w: real, d: real, nDecimals: int): real {
    if w == 0.0 then 1.0
    else if peakCount <= 1 then 1.0
    else
      var p := d * (peakCount as real) / w;
      FloorDecimal(if p > 1.0 then 1.0 else p, nDecimals)
  }

  /**
   * p is exactly 1 for an empty m/z range or at most one peak; otherwise it
   * is min(1, d·N/w) rounded down by less than one decimal unit, so it never
   * exceeds 1, and it is a probability when d >= 0 and w > 0.
   */
  lemma GetpBounds(peakCount: nat, w: real, d: real, nDecimals: int)
    ensures w == 0.0 || peakCount <= 1 ==> Getp(peakCount, w, d, nDecimals) == 1.0
    ensures Getp(peakCount, w, d, nDecimals) <= 1.0
    ensures w != 0.0 && peakCount > 1 ==>
      var capped := if d * (peakCount as real) / w > 1.0 then 1.0 else d * (peakCount as real) / w;
      capped - 1.0 / Pow10(nDecimals) < Getp(peakCount, w, d, nDecimals) <= capped
    ensures w > 0.0 && d >= 0.0 ==> 0.0 <= Getp(peakCount, w, d, nDecimals) <= 1.0
  {
    if w != 0.0 && peakCount > 1 {
      var p := d * (peakCount as real) / w;
      FloorDecimalBounds(if p > 1.0 then 1.0 else p, nDecimals);
      if w > 0.0 && d >= 0.0 {
        assert d * (peakCount as real) >= 0.0;
        assert p >= 0.0;
      }
    }
  }

  /** The number of annotation matches on a peptide fragment ion. */
  function FragmentMatches(types: seq<IonType>): nat {
    if types == [] then 0
    else FragmentMatches(types[..|types| - 1]) + (if types[|types| - 1] == PeptideFragmentIon then 1 else 0)
  }

  /** The count is at most the number of matches, and 0 exactly when none is a peptide fragment ion. */
  lemma {:induction false} FragmentMatchesBounds(types: seq<IonType>)
    ensures FragmentMatches(types) <= |types|
    ensures FragmentMatches(types) == 0 <==> forall i :: 0 <= i < |types| ==> types[i] != PeptideFragmentIon
  {
    if types != [] {
      var t := types[..|types| - 1];
      FragmentMatchesBounds(t);
      assert forall i :: 0 <= i < |t| ==> t[i] == types[i];
    }
  }

  /** A binomial distribution B(trials, probability), as identified by the cache. */
  datatype Distribution = Binomial(trials: int, probability: real)

  /**
   * The score of a profile: 1 when no peptide fragment ion is matched,
   * otherwise tail(B(n, p), k), the probability of at least k successes, k
   * being the number of peptide fragment ion matches.
   */
  function ScoreP(p: real, n: int, matches: seq<IonType>, tail: (Distribution, int) -> real): real {
    var k := FragmentMatches(matches);
    if k == 0 then 1.0 else tail(Binomial(n, p), k)
  }

  /** With no peptide fragment ion among the matches the score is exactly 1, whatever p and n. */
  lemma ScorePUnmatched(p: real, n: int, matches: seq<IonType>, tail: (Distribution, int) -> real)
    requires forall i :: 0 <= i < |matches| ==> matches[i] != PeptideFragmentIon
    ensures ScoreP(p, n, matches, tail) == 1.0
  {
    FragmentMatchesBounds(matches);
  }

  /** With some peptide fragment ion matched, the score is the binomial tail at k, for 1 <= k <= |matches|. */
  lemma ScorePMatched(p: real, n: int, matches: seq<IonType>, tail: (Distribution, int) -> real, i: nat)
    requires i < |matches| && matches[i] == PeptideFragmentIon
    ensures 1 <= FragmentMatches(matches) <= |matches|
    ensures ScoreP(p, n, matches, tail) == tail(Binomial(n, p), FragmentMatches(matches))
  {
    FragmentMatchesBounds(matches);
  }

  /** When the binomial tail is a probability, so is the score. */
  lemma ScorePIsProbability(p: real, n: int, matches: seq<IonType>, tail: (Distribution, int) -> real)
    requires forall k :: 0.0 <= tail(Binomial(n, p), k) <= 1.0
    ensures 0.0 <= ScoreP(p, n, matches, tail) <= 1.0
  {
    var k := FragmentMatches(matches);
    if k != 0 {
      assert 0.0 <= tail(Binomial(n, p), k) <= 1.0;
    }
  }

  /** Storing under a key adds at most that key. */
  lemma UpdateSize<K, V>(m: map<K, V>, k: K, v: V)
    ensures |m| <= |m[k := v]| <= |m| + 1
  {
    if k in m {
      assert m[k := v].Keys == m.Keys;
    } else {
      assert m[k := v].Keys == m.Keys + {k};
    }
  }

  /** The number of binomial distributions kept in the cache (distributionCacheSize). */
  const DISTRIBUTION_CACHE_SIZE: nat := 1000

  /** The static distributionCache: binomial distributions by p, then by n. */
  class DistributionCache {
    var entries: map<real, map<int, Distribution>>

    /** Each cached distribution is the one of its keys, and the cache holds at most its capacity of p-keys. */
    ghost predicate Valid()
      reads this
    {
      && |entries| <= DISTRIBUTION_CACHE_SIZE
      && forall p, n :: p in entries && n in entries[p] ==> entries[p][n] == Binomial(n, p)
    }

    constructor ()
      ensures Valid() && entries == map[]
    {
      entries := map[];
    }

    /** The cached distribution for (p, n), if any. */
    function Lookup(p: real, n: int): Option<Distribution>
      reads this
    {
      if p in entries && n in entries[p] then Some(entries[p][n]) else None
    }

    /**
     * Stores `distribution` under (p, n). A full cache first loses p-keys, in
     * the iteration order of its key set, until it is below capacity.
     */
    method AddDistributionToCache(p: real, n: int, distribution: Distribution)
      modifies this
      ensures |entries| <= DISTRIBUTION_CACHE_SIZE
      ensures Lookup(p, n) == Some(distribution)
      ensures entries.Keys <= old(entries).Keys + {p}
      ensures forall q :: q in entries && q != p ==> entries[q] == old(entries)[q]
      ensures forall m :: m in entries[p] && m != n ==>
        p in old(entries) && m in old(entries)[p] && entries[p][m] == old(entries)[p][m]
      ensures |old(entries)| < DISTRIBUTION_CACHE_SIZE ==>
        entries == old(entries)[p := (if p in old(entries) then old(entries)[p] else map[])[n := distribution]]
      ensures |old(entries)| >= DISTRIBUTION_CACHE_SIZE ==> |entries| >= DISTRIBUTION_CACHE_SIZE - 1
      ensures old(Valid()) && distribution == Binomial(n, p) ==> Valid()
    {
      if |entries| >= DISTRIBUTION_CACHE_SIZE {
        EvictBelowCapacity();
      }
      var distributionsAtP: map<int, Distribution> := if p in entries then entries[p] else map[];
      UpdateSize(entries, p, distributionsAtP[n := distribution]);
      entries := entries[p := distributionsAtP[n := distribution]];
    }

    /** The eviction loop: removes p-keys, in key-set order, until fewer than the capacity remain. */
    method EvictBelowCapacity()
      requires |entries| >= DISTRIBUTION_CACHE_SIZE
      modifies this
      ensures |entries| == DISTRIBUTION_CACHE_SIZE - 1
      ensures entries.Keys <= old(entries).Keys
      ensures forall q :: q in entries ==> entries[q] == old(entries)[q]
    {
      var keys := entries.Keys;
      while keys != {}
        invariant keys == entries.Keys
        invariant entries.Keys <= old(entries).Keys
        invariant forall q :: q in entries ==> entries[q] == old(entries)[q]
        invariant |entries| >= DISTRIBUTION_CACHE_SIZE
        decreases |keys|
      {
        var key := AnyElement(keys);
        keys := keys - {key};
        entries := entries - {key};
        if |entries| < DISTRIBUTION_CACHE_SIZE {
          break;
        }
      }
    }

    /**
     * getPhosphoRsScoreP: the score does not depend on the cache; a
     * distribution that was not cached is added when the score was computed
     * with it and its own cache is not empty (`distributionCacheFilled`).
     */
    method GetPhosphoRsScoreP(p: real, n: int, matches: seq<IonType>, tail: (Distribution, int) -> real,
                              distributionCacheFilled: bool) returns (r: real)
      requires Valid()
      modifies this
      ensures Valid()
      ensures r == ScoreP(p, n, matches, tail)
      ensures FragmentMatches(matches) == 0 || old(Lookup(p, n)).Some? || !distributionCacheFilled ==>
        entries == old(entries)
      ensures FragmentMatches(matches) > 0 && distributionCacheFilled ==> Lookup(p, n) == Some(Binomial(n, p))
      ensures FragmentMatches(matches) > 0 && old(Lookup(p, n)).None? && distributionCacheFilled ==>
        && entries.Keys <= old(entries).Keys + {p}
        && (forall q :: q in entries && q != p ==> entries[q] == old(entries)[q])
        && p in entries
        && (forall m :: m in entries[p] && m != n ==>
              p in old(entries) && m in old(entries)[p] && entries[p][m] == old(entries)[p][m])
        && (|old(entries)| < DISTRIBUTION_CACHE_SIZE ==>
              entries == old(entries)[p := (if p in old(entries) then old(entries)[p] else map[])[n := Binomial(n, p)]])
        && (|old(entries)| >= DISTRIBUTION_CACHE_SIZE ==> |entries| >= DISTRIBUTION_CACHE_SIZE - 1)
    {
      var distribution: Distribution;
      var inCache := true;
      if p in entries && n in entries[p] {
        distribution := entries[p][n];
      } else {
        distribution := Binomial(n, p);
        inCache := false;
      }
      var k := 0;
      for i := 0 to |matches|
        invariant k == FragmentMatches(matches[..i])
      {
        assert matches[..i + 1][..i] == matches[..i];
        if matches[i] == PeptideFragmentIon {
          k := k + 1;
        }
      }
      assert matches[..|matches|] == matches;
      if k == 0 {
        return 1.0;
      }
      r := tail(distribution, k);
      if !inCache && distributionCacheFilled {
        AddDistributionToCache(p, n, distribution);
      }
    }
  }
}
