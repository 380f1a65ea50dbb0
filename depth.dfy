/**
 * The per-window depth selection of PhosphoRS.getSequenceProbabilities: the
 * filtered spectrum is cut into windows of WINDOW_SIZE; in each window the
 * reduced spectra of depth 1, 2, ... are scored and one of them is kept.
 *
 * The score of a profile on a sub-spectrum (getPhosphoRsScoreP with its p
 * and n) is the input function `score`; the score of the identified
 * peptide on a sub-spectrum is `plainScore`; the peaks of a window
 * (getSubSpectrum, in the iteration order of its map) are `extract`.
 */
module DepthSelection {

  import opened Outcomes
  import opened Sorting
  import opened Spectra
  import opened Profiles
  import opened ReducedSpectra
  import opened SpectrumFilter

  /** The minimal depth per window (2 in the original paper). */
  const MIN_DEPTH: nat := 2

  // ---------------------------------------------------------------------
  // The site-determining ions of each profile inside a window
  // ---------------------------------------------------------------------

  /** `m` with `mz` added to the set of every profile of `keys`. */
  function AddIon(m: map<Profile, set<real>>, keys: seq<Profile>, mz: real): map<Profile, set<real>> {
    if keys == [] then m
    else
      var prev := AddIon(m, keys[..|keys| - 1], mz);
      var key := keys[|keys| - 1];
      prev[key := (if key in prev then prev[key] else {}) + {mz}]
  }

  /**
   * For every profile, the site-determining m/z values in the window
   * (lo, hi] that list it; `ions` are the keys of `siteMap` in iteration order.
   */
  function WindowIons(ions: seq<real>, siteMap: map<real, seq<Profile>>, lo: real, hi: real): map<Profile, set<real>>
    requires forall i :: 0 <= i < |ions| ==> ions[i] in siteMap
  {
    if ions == [] then map[]
    else
      var prev := WindowIons(ions[..|ions| - 1], siteMap, lo, hi);
      var mz := ions[|ions| - 1];
      if lo < mz <= hi then AddIon(prev, siteMap[mz], mz) else prev
  }

  lemma {:induction false} AddIonFacts(m: map<Profile, set<real>>, keys: seq<Profile>, mz: real)
    ensures forall k :: k in AddIon(m, keys, mz) <==> k in m || k in keys
    ensures forall k :: k in AddIon(m, keys, mz) ==>
      AddIon(m, keys, mz)[k] == (if k in m then m[k] else {}) + (if k in keys then {mz} else {})
  {
    if keys != [] {
      var t := keys[..|keys| - 1];
      AddIonFacts(m, t, mz);
      assert keys == t + [keys[|keys| - 1]];
    }
  }

  /**
   * A profile has an entry exactly when some site-determining m/z value of
   * the window lists it, and its set is exactly those values.
   */
  lemma {:induction false} WindowIonsFacts(ions: seq<real>, siteMap: map<real, seq<Profile>>, lo: real, hi: real)
    requires forall i :: 0 <= i < |ions| ==> ions[i] in siteMap
    ensures forall k, mz :: k in WindowIons(ions, siteMap, lo, hi) && mz in WindowIons(ions, siteMap, lo, hi)[k] <==>
      mz in ions && lo < mz <= hi && mz in siteMap && k in siteMap[mz]
    ensures forall k :: k in WindowIons(ions, siteMap, lo, hi) ==> WindowIons(ions, siteMap, lo, hi)[k] != {}
  {
    if ions != [] {
      var t, mz := ions[..|ions| - 1], ions[|ions| - 1];
      WindowIonsFacts(t, siteMap, lo, hi);
      assert ions == t + [mz];
      if lo < mz <= hi {
        AddIonFacts(WindowIons(t, siteMap, lo, hi), siteMap[mz], mz);
      }
      forall x ensures x in ions <==> x in t || x == mz { }
    }
  }

  /** The loop collecting the window's site-determining ions per profile. */
  method WindowIonSets(ions: seq<real>, siteMap: map<real, seq<Profile>>, minMz: real, tempMax: real)
    returns (profileToIons: map<Profile, set<real>>)
    requires forall i :: 0 <= i < |ions| ==> ions[i] in siteMap
    ensures profileToIons == WindowIons(ions, siteMap, minMz, tempMax)
  {
    profileToIons := map[];
    for i := 0 to |ions|
      invariant profileToIons == WindowIons(ions[..i], siteMap, minMz, tempMax)
    {
      assert ions[..i + 1][..i] == ions[..i];
      var ionMz := ions[i];
      if ionMz > minMz && ionMz <= tempMax {
        profileToIons := AddIonToProfiles(profileToIons, siteMap[ionMz], ionMz);
      }
    }
    assert ions[..|ions|] == ions;
  }

  method AddIonToProfiles(m: map<Profile, set<real>>, profiles: seq<Profile>, ionMz: real)
    returns (r: map<Profile, set<real>>)
    ensures r == AddIon(m, profiles, ionMz)
  {
    r := m;
    for j := 0 to |profiles|
      invariant r == AddIon(m, profiles[..j], ionMz)
    {
      assert profiles[..j + 1][..j] == profiles[..j];
      var profileKey := profiles[j];
      var mzs: set<real> := if profileKey in r then r[profileKey] else {};
      r := r[profileKey := mzs + {ionMz}];
    }
    assert profiles[..|profiles|] == profiles;
  }

  // ---------------------------------------------------------------------
  // The profiles scored at each depth
  // ---------------------------------------------------------------------

  /** What identifies a profile's score: its window ion set, or none. */
  function Sig(ionSets: map<Profile, set<real>>, key: Profile): Option<set<real>> {
    if key in ionSets then Some(ionSets[key]) else None
  }

  /**
   * The state of the profile loop: whether a profile without site-determining
   * ions was scored, the ion sets scored, and the profiles scored.
   */
  datatype Selection = Selection(noSetScored: bool, scored: seq<set<real>>, chosen: seq<Profile>)

  function SelectStep(s: Selection, ionSets: map<Profile, set<real>>, key: Profile): Selection {
    if key !in ionSets then
      if !s.noSetScored then Selection(true, s.scored, s.chosen + [key]) else s
    else if ionSets[key] in s.scored then s
    else Selection(s.noSetScored, s.scored + [ionSets[key]], s.chosen + [key])
  }

  function Select(keys: seq<Profile>, ionSets: map<Profile, set<real>>): Selection {
    if keys == [] then Selection(false, [], [])
    else SelectStep(Select(keys[..|keys| - 1], ionSets), ionSets, keys[|keys| - 1])
  }

  /** The profiles scored: the first one of each ion set, and the first one without a set. */
  function Representatives(keys: seq<Profile>, ionSets: map<Profile, set<real>>): seq<Profile> {
    Select(keys, ionSets).chosen
  }

  /** The loop state records exactly the signatures of the profiles chosen so far. */
  ghost predicate Coherent(s: Selection, ionSets: map<Profile, set<real>>) {
    && (s.noSetScored <==> exists i :: 0 <= i < |s.chosen| && Sig(ionSets, s.chosen[i]) == None)
    && (forall v :: v in s.scored <==> exists i :: 0 <= i < |s.chosen| && Sig(ionSets, s.chosen[i]) == Some(v))
  }

  lemma StepCoherent(s: Selection, ionSets: map<Profile, set<real>>, key: Profile)
    requires Coherent(s, ionSets)
    ensures var r := SelectStep(s, ionSets, key);
      && Coherent(r, ionSets)
      && (r == s || (r.chosen == s.chosen + [key] &&
                     forall i :: 0 <= i < |s.chosen| ==> Sig(ionSets, s.chosen[i]) != Sig(ionSets, key)))
      && exists i :: 0 <= i < |r.chosen| && Sig(ionSets, r.chosen[i]) == Sig(ionSets, key)
  {
    var r := SelectStep(s, ionSets, key);
    var c := s.chosen;
    if r == s {
      if key !in ionSets {
        var i :| 0 <= i < |c| && Sig(ionSets, c[i]) == None;
      } else {
        var i :| 0 <= i < |c| && Sig(ionSets, c[i]) == Some(ionSets[key]);
      }
    } else {
      assert r.chosen[|c|] == key;
      assert forall i :: 0 <= i < |c| ==> r.chosen[i] == c[i];
    }
  }

  lemma {:induction false} SelectIsCoherent(keys: seq<Profile>, ionSets: map<Profile, set<real>>)
    ensures Coherent(Select(keys, ionSets), ionSets)
  {
    if keys != [] {
      SelectIsCoherent(keys[..|keys| - 1], ionSets);
      StepCoherent(Select(keys[..|keys| - 1], ionSets), ionSets, keys[|keys| - 1]);
    }
  }

  lemma {:induction false} SelectMembers(keys: seq<Profile>, ionSets: map<Profile, set<real>>)
    ensures forall i :: 0 <= i < |Representatives(keys, ionSets)| ==> Representatives(keys, ionSets)[i] in keys
  {
    if keys != [] {
      var t, key := keys[..|keys| - 1], keys[|keys| - 1];
      SelectMembers(t, ionSets);
      assert keys == t + [key];
      var c := Representatives(t, ionSets);
      var r := Representatives(keys, ionSets);
      assert r == c || r == c + [key];
      forall i | 0 <= i < |r| ensures r[i] in keys {
        if i < |c| {
          assert r[i] == c[i] && c[i] in t;
        } else {
          assert r[i] == key;
        }
      }
    }
  }

  lemma {:induction false} SelectDistinct(keys: seq<Profile>, ionSets: map<Profile, set<real>>)
    ensures forall i, j :: 0 <= i < j < |Representatives(keys, ionSets)| ==>
      Sig(ionSets, Representatives(keys, ionSets)[i]) != Sig(ionSets, Representatives(keys, ionSets)[j])
  {
    if keys != [] {
      var t, key := keys[..|keys| - 1], keys[|keys| - 1];
      SelectDistinct(t, ionSets);
      SelectIsCoherent(t, ionSets);
      var s := Select(t, ionSets);
      StepCoherent(s, ionSets, key);
      var c := Representatives(t, ionSets);
      assert c == s.chosen;
      var r := Representatives(keys, ionSets);
      assert r == SelectStep(s, ionSets, key).chosen;
      if r != c {
        assert SelectStep(s, ionSets, key) != s;
        assert r == c + [key];
        assert forall i :: 0 <= i < |c| ==> Sig(ionSets, c[i]) != Sig(ionSets, key);
        forall i, j | 0 <= i < j < |r| ensures Sig(ionSets, r[i]) != Sig(ionSets, r[j]) {
          assert r[i] == c[i];
          if j < |c| {
            assert r[j] == c[j];
            assert Sig(ionSets, c[i]) != Sig(ionSets, c[j]);
          } else {
            assert r[j] == key;
            assert Sig(ionSets, c[i]) != Sig(ionSets, key);
          }
        }
      }
    }
  }

  lemma {:induction false} SelectCovers(keys: seq<Profile>, ionSets: map<Profile, set<real>>)
    ensures forall k :: k in keys ==>
      exists i :: 0 <= i < |Representatives(keys, ionSets)| && Sig(ionSets, Representatives(keys, ionSets)[i]) == Sig(ionSets, k)
  {
    if keys != [] {
      var t, key := keys[..|keys| - 1], keys[|keys| - 1];
      SelectCovers(t, ionSets);
      SelectIsCoherent(t, ionSets);
      assert keys == t + [key];
      var s := Select(t, ionSets);
      StepCoherent(s, ionSets, key);
      var c := s.chosen;
      var r := SelectStep(s, ionSets, key);
      assert c <= r.chosen;
      assert Representatives(keys, ionSets) == r.chosen;
      forall k | k in keys
        ensures exists i :: 0 <= i < |r.chosen| && Sig(ionSets, r.chosen[i]) == Sig(ionSets, k)
      {
        if k in t {
          var i :| 0 <= i < |c| && Sig(ionSets, c[i]) == Sig(ionSets, k);
          assert r.chosen[i] == c[i];
        }
      }
    }
  }

  /**
   * The scored profiles are profiles of the list, with pairwise different
   * ion sets (at most one of them without a set), and every profile of the
   * list shares its ion set, or the lack of one, with a scored profile.
   */
  lemma RepresentativesFacts(keys: seq<Profile>, ionSets: map<Profile, set<real>>)
    ensures var r := Representatives(keys, ionSets);
      && (forall i :: 0 <= i < |r| ==> r[i] in keys)
      && (forall i, j :: 0 <= i < j < |r| ==> Sig(ionSets, r[i]) != Sig(ionSets, r[j]))
      && (forall k :: k in keys ==> exists i :: 0 <= i < |r| && Sig(ionSets, r[i]) == Sig(ionSets, k))
  {
    SelectMembers(keys, ionSets);
    SelectDistinct(keys, ionSets);
    SelectCovers(keys, ionSets);
  }

  /** Each step only appends to the profiles chosen so far. */
  lemma {:induction false} RepresentativesPrefix(keys: seq<Profile>, ionSets: map<Profile, set<real>>, n: nat)
    requires n <= |keys|
    ensures Representatives(keys[..n], ionSets) <= Representatives(keys, ionSets)
    decreases |keys| - n
  {
    if n < |keys| {
      RepresentativesPrefix(keys, ionSets, n + 1);
      assert keys[..n + 1][..n] == keys[..n];
    } else {
      assert keys[..n] == keys;
    }
  }

  // ---------------------------------------------------------------------
  // The scores of one reduced spectrum
  // ---------------------------------------------------------------------

  /** checkProbabilityRange: a score must lie in [0, 1]. */
  predicate IsProbability(x: real) {
    0.0 <= x <= 1.0
  }

  /** The scores of `reps` on `sp`, in order. */
  function Scored(sp: PeakMap, reps: seq<Profile>, score: (PeakMap, Profile) -> real): seq<real> {
    seq(|reps|, i requires 0 <= i < |reps| => score(sp, reps[i]))
  }

  /** The bigPs list of a reduced spectrum, or the failed range check. */
  function DepthScoresOf(sp: PeakMap, keys: seq<Profile>, ionSets: map<Profile, set<real>>,
                         score: (PeakMap, Profile) -> real): Result<seq<real>> {
    var reps := Representatives(keys, ionSets);
    if InRange(sp, reps, score) then Ok(Scored(sp, reps, score)) else Err(ProbabilityOutOfRange)
  }

  /** Every score of `reps` on `sp` passes the range check. */
  predicate InRange(sp: PeakMap, reps: seq<Profile>, score: (PeakMap, Profile) -> real) {
    forall i :: 0 <= i < |reps| ==> IsProbability(score(sp, reps[i]))
  }

  lemma ScoredSnoc(sp: PeakMap, reps: seq<Profile>, key: Profile, score: (PeakMap, Profile) -> real)
    requires InRange(sp, reps, score) && IsProbability(score(sp, key))
    ensures Scored(sp, reps + [key], score) == Scored(sp, reps, score) + [score(sp, key)]
    ensures InRange(sp, reps + [key], score)
  {
    assert forall i :: 0 <= i < |reps| ==> (reps + [key])[i] == reps[i];
  }

  lemma SelectAt(keys: seq<Profile>, ionSets: map<Profile, set<real>>, i: nat)
    requires i < |keys|
    ensures Select(keys[..i + 1], ionSets) == SelectStep(Select(keys[..i], ionSets), ionSets, keys[i])
  {
    assert keys[..i + 1][..i] == keys[..i];
  }

  /** Whether an ion set equal to `ions` was scored already (Util.sameSets, taken as set equality). */
  method AlreadyScored(scored: seq<set<real>>, ions: set<real>) returns (found: bool)
    ensures found <==> ions in scored
  {
    found := false;
    var j := 0;
    while j < |scored|
      invariant 0 <= j <= |scored|
      invariant ions !in scored[..j]
    {
      if scored[j] == ions {
        found := true;
        break;
      }
      assert scored[..j + 1] == scored[..j] + [scored[j]];
      j := j + 1;
    }
    assert !found ==> scored[..j] == scored;
  }

  /**
   * The profile loop for one reduced spectrum: scores the first profile
   * without site-determining ions in the window and the first profile of
   * each ion set, checking that each score is a probability.
   */
  method DepthScores(sp: PeakMap, keys: seq<Profile>, ionSets: map<Profile, set<real>>,
                     score: (PeakMap, Profile) -> real) returns (r: Result<seq<real>>)
    ensures r == DepthScoresOf(sp, keys, ionSets, score)
  {
    var bigPs: seq<real> := [];
    var scored: seq<set<real>> := [];
    var noSetScored := false;
    for i := 0 to |keys|
      invariant Select(keys[..i], ionSets).noSetScored == noSetScored
      invariant Select(keys[..i], ionSets).scored == scored
      invariant bigPs == Scored(sp, Representatives(keys[..i], ionSets), score)
      invariant InRange(sp, Representatives(keys[..i], ionSets), score)
    {
      SelectAt(keys, ionSets, i);
      ghost var prev := Representatives(keys[..i], ionSets);
      var profileKey := keys[i];
      if profileKey !in ionSets {
        if !noSetScored {
          noSetScored := true;
          var bigP := score(sp, profileKey);
          if !IsProbability(bigP) {
            OutOfRangeFails(sp, keys, ionSets, score, i + 1, |prev|);
            return Err(ProbabilityOutOfRange);
          }
          ScoredSnoc(sp, prev, profileKey, score);
          bigPs := bigPs + [bigP];
        }
      } else {
        var tempSiteDeterminingIons := ionSets[profileKey];
        var alreadyScored := AlreadyScored(scored, tempSiteDeterminingIons);
        if !alreadyScored {
          var bigP := score(sp, profileKey);
          if !IsProbability(bigP) {
            OutOfRangeFails(sp, keys, ionSets, score, i + 1, |prev|);
            return Err(ProbabilityOutOfRange);
          }
          ScoredSnoc(sp, prev, profileKey, score);
          bigPs := bigPs + [bigP];
          scored := scored + [tempSiteDeterminingIons];
        }
      }
    }
    assert keys[..|keys|] == keys;
    return Ok(bigPs);
  }

  /** A failed range check on a profile chosen from a prefix of the list fails the whole list. */
  lemma OutOfRangeFails(sp: PeakMap, keys: seq<Profile>, ionSets: map<Profile, set<real>>,
                        score: (PeakMap, Profile) -> real, n: nat, j: nat)
    requires n <= |keys| && j < |Representatives(keys[..n], ionSets)|
    requires !IsProbability(score(sp, Representatives(keys[..n], ionSets)[j]))
    ensures DepthScoresOf(sp, keys, ionSets, score) == Err(ProbabilityOutOfRange)
  {
    RepresentativesPrefix(keys, ionSets, n);
    assert Representatives(keys, ionSets)[j] == Representatives(keys[..n], ionSets)[j];
  }

  // ---------------------------------------------------------------------
  // Deltas between consecutive sorted scores
  // ---------------------------------------------------------------------

  /** A Java double quotient: a real value, an infinity or NaN. */
  datatype Ratio = NaN | PosInf | NegInf | Value(v: real)

  /** a / b on doubles, for finite a and b. */
  function Quotient(a: real, b: real): Ratio {
    if b != 0.0 then Value(a / b) else if a == 0.0 then NaN else if a > 0.0 then PosInf else NegInf
  }

  /** a > b on doubles: false whenever NaN is involved. */
  predicate Greater(a: Ratio, b: Ratio) {
    match (a, b)
    case (NaN, _) => false
    case (_, NaN) => false
    case (PosInf, PosInf) => false
    case (PosInf, _) => true
    case (NegInf, _) => false
    case (Value(_), PosInf) => false
    case (Value(_), NegInf) => true
    case (Value(x), Value(y)) => x > y
  }

  /** The quotients of consecutive entries: bigPs.size() - 1 of them. */
  function Deltas(ps: seq<real>): (r: seq<Ratio>)
    ensures |r| == if |ps| == 0 then 0 else |ps| - 1
  {
    if |ps| <= 1 then [] else Deltas(ps[..|ps| - 1]) + [Quotient(ps[|ps| - 2], ps[|ps| - 1])]
  }

  lemma {:induction false} DeltasAt(ps: seq<real>, j: nat)
    requires j + 1 < |ps|
    ensures Deltas(ps)[j] == Quotient(ps[j], ps[j + 1])
  {
    var t := ps[..|ps| - 1];
    if j + 1 < |t| {
      DeltasAt(t, j);
    }
  }

  /** A delta of sorted probabilities: NaN, or a ratio in [0, 1]. */
  predicate IsRatio(d: Ratio) {
    d == NaN || (d.Value? && 0.0 <= d.v <= 1.0)
  }

  /**
   * The deltas of ascending non-negative scores: each is NaN, exactly when
   * the larger score is 0, or a ratio between 0 and 1.
   */
  lemma DeltasOfSortedScores(ps: seq<real>)
    requires SortedBy(ps, AscendingReals())
    requires forall i :: 0 <= i < |ps| ==> ps[i] >= 0.0
    ensures forall j :: 0 <= j < |Deltas(ps)| ==> IsRatio(Deltas(ps)[j])
    ensures forall j :: 0 <= j < |Deltas(ps)| ==> (Deltas(ps)[j] == NaN <==> ps[j + 1] == 0.0)
  {
    forall j | 0 <= j < |Deltas(ps)|
      ensures IsRatio(Deltas(ps)[j])
      ensures Deltas(ps)[j] == NaN <==> ps[j + 1] == 0.0
    {
      DeltasAt(ps, j);
      assert AscendingReals()(ps[j], ps[j + 1]);
      if ps[j + 1] != 0.0 {
        RatioBounds(ps[j], ps[j + 1]);
      }
    }
  }

  /** The quotient of two scores 0 <= a <= b with b > 0 lies in [0, 1]. */
  lemma RatioBounds(a: real, b: real)
    requires 0.0 <= a <= b && b != 0.0
    ensures 0.0 <= a / b <= 1.0
  {
    DivLe(a, b, b);
    DivLe(0.0, a, b);
    DivSelf(b);
  }

  lemma DivLe(a: real, b: real, s: real)
    requires s > 0.0 && a <= b
    ensures a / s <= b / s
  {
  }

  lemma DivSelf(s: real)
    requires s != 0.0
    ensures s / s == 1.0
  {
  }

  /** Sorted, the scores of a reduced spectrum yield deltas that are NaN or ratios in [0, 1]. */
  lemma DeltasOfScores(bigPs: seq<real>)
    requires forall i :: 0 <= i < |bigPs| ==> IsProbability(bigPs[i])
    ensures forall j :: 0 <= j < |Deltas(Sort(bigPs, AscendingReals()))| ==> IsRatio(Deltas(Sort(bigPs, AscendingReals()))[j])
  {
    var ps := Sort(bigPs, AscendingReals());
    OrdersArePreorders();
    SortSorted(bigPs, AscendingReals());
    forall i | 0 <= i < |ps| ensures ps[i] >= 0.0 {
      assert ps[i] in multiset(bigPs);
      assert ps[i] in bigPs;
      var k :| 0 <= k < |bigPs| && bigPs[k] == ps[i];
      assert IsProbability(bigPs[k]);
    }
    DeltasOfSortedScores(ps);
  }

  /** Sorts the scores and takes the quotient of each with the next. */
  method DepthDeltas(bigPs: seq<real>) returns (currentDeltas: seq<Ratio>)
    ensures currentDeltas == Deltas(Sort(bigPs, AscendingReals()))
  {
    var sorted := Sort(bigPs, AscendingReals());
    currentDeltas := [];
    ghost var deltas := Deltas(sorted);
    var j := 0;
    while j < |sorted| - 1
      invariant 0 <= j <= |deltas|
      invariant currentDeltas == deltas[..j]
    {
      var pJ := sorted[j];
      var pJPlusOne := sorted[j + 1];
      DeltasAt(sorted, j);
      currentDeltas := currentDeltas + [Quotient(pJ, pJPlusOne)];
      assert currentDeltas == deltas[..j + 1];
      j := j + 1;
    }
    assert deltas[..j] == deltas;
  }

  // ---------------------------------------------------------------------
  // Choosing the depth
  // ---------------------------------------------------------------------

  /** The largest delta seen so far and the index of its reduced spectrum. */
  datatype Best = Best(largest: Ratio, index: nat)

  /** The scan of rank `j` over the delta lists of the first `n` reduced spectra. */
  function RankScan(deltas: seq<seq<Ratio>>, j: nat, n: nat, b: Best): Best
    requires n <= |deltas|
  {
    if n == 0 then b
    else
      var c := RankScan(deltas, j, n - 1, b);
      if j < |deltas[n - 1]| && Greater(deltas[n - 1][j], c.largest) then Best(deltas[n - 1][j], n - 1) else c
  }

  /** The scan of ranks j, j + 1, ... below nDeltas, while the largest delta is still 0. */
  function DepthScan(deltas: seq<seq<Ratio>>, nDeltas: nat, j: nat, b: Best): Best
    decreases nDeltas - j
  {
    if j < nDeltas && b.largest == Value(0.0) then DepthScan(deltas, nDeltas, j + 1, RankScan(deltas, j, |deltas|, b))
    else b
  }

  /** The length of the longest delta list (nDeltas). */
  function MaxLength(deltas: seq<seq<Ratio>>): nat {
    if deltas == [] then 0
    else
      var m := MaxLength(deltas[..|deltas| - 1]);
      if |deltas[|deltas| - 1]| > m then |deltas[|deltas| - 1]| else m
  }

  /** The index moved up to MIN_DEPTH - 1 when that many spectra exist, and down to MAX_DEPTH - 1. */
  function Clamp(bestI: nat, nSpectra: nat): nat {
    var b := if bestI < MIN_DEPTH - 1 && MIN_DEPTH - 1 < nSpectra then MIN_DEPTH - 1 else bestI;
    if b > MAX_DEPTH - 1 then MAX_DEPTH - 1 else b
  }

  /** The depth index kept for a window, from one delta list per reduced spectrum. */
  function ChosenDepth(deltas: seq<seq<Ratio>>): nat {
    Clamp(DepthScan(deltas, MaxLength(deltas), 0, Best(Value(0.0), 0)).index, |deltas|)
  }

  /** The depth loops: for each rank, while no positive delta was seen, the spectrum with the largest delta. */
  method ChooseDepth(deltas: seq<seq<Ratio>>, nDeltas: nat) returns (bestI: nat)
    requires nDeltas == MaxLength(deltas)
    ensures bestI == ChosenDepth(deltas)
  {
    bestI := 0;
    var largestDelta := Value(0.0);
    var j := 0;
    while j < nDeltas && largestDelta == Value(0.0)
      invariant j <= nDeltas
      invariant DepthScan(deltas, nDeltas, j, Best(largestDelta, bestI)) == DepthScan(deltas, nDeltas, 0, Best(Value(0.0), 0))
      decreases nDeltas - j
    {
      ghost var before := Best(largestDelta, bestI);
      for i := 0 to |deltas|
        invariant Best(largestDelta, bestI) == RankScan(deltas, j, i, before)
      {
        var tempDeltas := deltas[i];
        if j < |tempDeltas| && Greater(tempDeltas[j], largestDelta) {
          largestDelta := tempDeltas[j];
          bestI := i;
        }
      }
      j := j + 1;
    }
    if bestI < MIN_DEPTH - 1 && MIN_DEPTH - 1 < |deltas| {
      bestI := MIN_DEPTH - 1;
    }
    if bestI > MAX_DEPTH - 1 {
      bestI := MAX_DEPTH - 1;
    }
  }

  lemma {:induction false} RankScanIndex(deltas: seq<seq<Ratio>>, j: nat, n: nat, b: Best)
    requires n <= |deltas|
    ensures RankScan(deltas, j, n, b) == b || RankScan(deltas, j, n, b).index < n
  {
    if n > 0 {
      RankScanIndex(deltas, j, n - 1, b);
    }
  }

  lemma {:induction false} DepthScanIndex(deltas: seq<seq<Ratio>>, nDeltas: nat, j: nat, b: Best)
    requires b.index == 0 || b.index < |deltas|
    ensures DepthScan(deltas, nDeltas, j, b).index == 0 || DepthScan(deltas, nDeltas, j, b).index < |deltas|
    decreases nDeltas - j
  {
    if j < nDeltas && b.largest == Value(0.0) {
      RankScanIndex(deltas, j, |deltas|, b);
      DepthScanIndex(deltas, nDeltas, j + 1, RankScan(deltas, j, |deltas|, b));
    }
  }

  /**
   * The kept depth indexes one of the reduced spectra, is at most
   * MAX_DEPTH - 1, and is at least MIN_DEPTH - 1 whenever more than
   * MIN_DEPTH - 1 reduced spectra exist.
   */
  lemma ChosenDepthBounds(deltas: seq<seq<Ratio>>)
    ensures |deltas| >= 1 ==> ChosenDepth(deltas) < |deltas|
    ensures ChosenDepth(deltas) <= MAX_DEPTH - 1
    ensures |deltas| > MIN_DEPTH - 1 ==> ChosenDepth(deltas) >= MIN_DEPTH - 1
  {
    DepthScanIndex(deltas, MaxLength(deltas), 0, Best(Value(0.0), 0));
  }

  /** Some reduced spectrum has a positive delta at rank j. */
  ghost predicate HasPositive(deltas: seq<seq<Ratio>>, j: nat) {
    exists i :: 0 <= i < |deltas| && j < |deltas[i]| && deltas[i][j].Value? && deltas[i][j].v > 0.0
  }

  /** Every delta is NaN or a ratio in [0, 1], as the deltas of probabilities are. */
  ghost predicate AllRatios(deltas: seq<seq<Ratio>>) {
    forall i, j :: 0 <= i < |deltas| && 0 <= j < |deltas[i]| ==> IsRatio(deltas[i][j])
  }

  /** A rank with no positive delta leaves the scan where it was. */
  lemma {:induction false} RankScanNoPositive(deltas: seq<seq<Ratio>>, j: nat, n: nat)
    requires n <= |deltas| && AllRatios(deltas)
    requires forall i :: 0 <= i < n && j < |deltas[i]| && deltas[i][j].Value? ==> deltas[i][j].v <= 0.0
    ensures RankScan(deltas, j, n, Best(Value(0.0), 0)) == Best(Value(0.0), 0)
  {
    if n > 0 {
      RankScanNoPositive(deltas, j, n - 1);
    }
  }

  /**
   * On a rank with a positive delta the scan ends on the first spectrum
   * holding the largest delta of that rank.
   */
  lemma {:induction false} RankScanMax(deltas: seq<seq<Ratio>>, j: nat, n: nat)
    requires n <= |deltas| && AllRatios(deltas)
    ensures var b := RankScan(deltas, j, n, Best(Value(0.0), 0));
      && b.largest.Value? && b.largest.v >= 0.0
      && (forall i :: 0 <= i < n && j < |deltas[i]| && deltas[i][j].Value? ==> deltas[i][j].v <= b.largest.v)
      && (b.largest.v > 0.0 ==>
            && b.index < n && j < |deltas[b.index]| && deltas[b.index][j] == b.largest
            && forall i :: 0 <= i < b.index && j < |deltas[i]| && deltas[i][j].Value? ==> deltas[i][j].v < b.largest.v)
  {
    if n > 0 {
      RankScanMax(deltas, j, n - 1);
      if j < |deltas[n - 1]| {
        assert IsRatio(deltas[n - 1][j]);
      }
    }
  }

  /**
   * The scan stops at the first rank holding a positive delta, and keeps
   * the first spectrum holding that rank's largest delta; with no positive
   * delta at all it keeps the first spectrum.
   */
  lemma {:induction false} DepthScanFirstPositive(deltas: seq<seq<Ratio>>, nDeltas: nat, j: nat)
    requires AllRatios(deltas) && j <= nDeltas
    ensures var b := DepthScan(deltas, nDeltas, j, Best(Value(0.0), 0));
      || (b == Best(Value(0.0), 0) && forall k :: j <= k < nDeltas ==> !HasPositive(deltas, k))
      || exists k :: j <= k < nDeltas && HasPositive(deltas, k) && (forall k' :: j <= k' < k ==> !HasPositive(deltas, k'))
                  && b == RankScan(deltas, k, |deltas|, Best(Value(0.0), 0))
    decreases nDeltas - j
  {
    if j < nDeltas {
      var r := RankScan(deltas, j, |deltas|, Best(Value(0.0), 0));
      RankScanMax(deltas, j, |deltas|);
      if HasPositive(deltas, j) {
        var i :| 0 <= i < |deltas| && j < |deltas[i]| && deltas[i][j].Value? && deltas[i][j].v > 0.0;
        assert r.largest != Value(0.0);
        assert DepthScan(deltas, nDeltas, j, Best(Value(0.0), 0)) == r;
      } else {
        RankScanNoPositive(deltas, j, |deltas|);
        assert DepthScan(deltas, nDeltas, j, Best(Value(0.0), 0)) == DepthScan(deltas, nDeltas, j + 1, Best(Value(0.0), 0));
        DepthScanFirstPositive(deltas, nDeltas, j + 1);
        var b := DepthScan(deltas, nDeltas, j + 1, Best(Value(0.0), 0));
        if exists k :: j + 1 <= k < nDeltas && HasPositive(deltas, k) && (forall k' :: j + 1 <= k' < k ==> !HasPositive(deltas, k'))
                       && b == RankScan(deltas, k, |deltas|, Best(Value(0.0), 0)) {
          var k :| j + 1 <= k < nDeltas && HasPositive(deltas, k) && (forall k' :: j + 1 <= k' < k ==> !HasPositive(deltas, k'))
                   && b == RankScan(deltas, k, |deltas|, Best(Value(0.0), 0));
          assert forall k' :: j <= k' < k ==> !HasPositive(deltas, k');
        }
      }
    }
  }

  /** The rank a scan stops at: the first below nDeltas holding a positive delta. */
  ghost predicate FirstPositiveRank(deltas: seq<seq<Ratio>>, k: nat) {
    k < MaxLength(deltas) && HasPositive(deltas, k) && forall k' :: 0 <= k' < k ==> !HasPositive(deltas, k')
  }

  /** Spectrum b holds the largest delta of rank k, positive, and is the first to hold it. */
  ghost predicate HoldsRankMax(deltas: seq<seq<Ratio>>, k: nat, b: nat) {
    && b < |deltas| && k < |deltas[b]| && deltas[b][k].Value? && deltas[b][k].v > 0.0
    && (forall i :: 0 <= i < |deltas| && k < |deltas[i]| && deltas[i][k].Value? ==> deltas[i][k].v <= deltas[b][k].v)
    && (forall i :: 0 <= i < b && k < |deltas[i]| && deltas[i][k].Value? ==> deltas[i][k].v < deltas[b][k].v)
  }

  /**
   * Before clamping, the depth scan keeps the first spectrum holding the
   * largest delta of the first rank that has a positive delta, and the
   * first spectrum when no rank has one.
   */
  lemma DepthScanChoice(deltas: seq<seq<Ratio>>)
    requires AllRatios(deltas)
    ensures var b := DepthScan(deltas, MaxLength(deltas), 0, Best(Value(0.0), 0)).index;
      && ((forall k :: 0 <= k < MaxLength(deltas) ==> !HasPositive(deltas, k)) ==> b == 0)
      && forall k :: FirstPositiveRank(deltas, k) ==> HoldsRankMax(deltas, k, b)
  {
    var n := MaxLength(deltas);
    var b := DepthScan(deltas, n, 0, Best(Value(0.0), 0));
    DepthScanFirstPositive(deltas, n, 0);
    if b != Best(Value(0.0), 0) || exists k :: 0 <= k < n && HasPositive(deltas, k) {
      var k0 :| 0 <= k0 < n && HasPositive(deltas, k0) && (forall k' :: 0 <= k' < k0 ==> !HasPositive(deltas, k'))
             && b == RankScan(deltas, k0, |deltas|, Best(Value(0.0), 0));
      RankScanMax(deltas, k0, |deltas|);
      var i :| 0 <= i < |deltas| && k0 < |deltas[i]| && deltas[i][k0].Value? && deltas[i][k0].v > 0.0;
      assert HoldsRankMax(deltas, k0, b.index);
      forall k: nat | FirstPositiveRank(deltas, k) ensures HoldsRankMax(deltas, k, b.index) {
        assert k == k0;
      }
    }
  }

  // ---------------------------------------------------------------------
  // The window branch without site-determining ions
  // ---------------------------------------------------------------------

  /** The lowest score seen so far and its index, the scan starting from bestP = `initial` at index 0. */
  datatype Lowest = Lowest(bestP: real, bestI: nat)

  function LowestScan(scores: seq<real>, initial: real): Lowest {
    if scores == [] then Lowest(initial, 0)
    else
      var c := LowestScan(scores[..|scores| - 1], initial);
      if scores[|scores| - 1] < c.bestP then Lowest(scores[|scores| - 1], |scores| - 1) else c
  }

  /** The scores of the peptide on each reduced spectrum. */
  function PlainScores(spectra: seq<PeakMap>, plainScore: PeakMap -> real): seq<real> {
    seq(|spectra|, i requires 0 <= i < |spectra| => plainScore(spectra[i]))
  }

  /**
   * The depth index kept when the window holds no site-determining ion, as
   * written: the scan starts from bestP = 0.0.
   */
  function AsWrittenPlainChoice(spectra: seq<PeakMap>, plainScore: PeakMap -> real): (r: Result<nat>)
    ensures r.Ok? && spectra != [] ==> r.value < |spectra|
  {
    var ps := PlainScores(spectra, plainScore);
    LowestScanInRange(ps, 0.0);
    if forall i :: 0 <= i < |ps| ==> IsProbability(ps[i]) then Ok(LowestScan(ps, 0.0).bestI) else Err(ProbabilityOutOfRange)
  }

  /**
   * The depth index kept when the window holds no site-determining ion,
   * corrected: the scan starts from bestP = 1.0, so the lowest score wins.
   */
  function PlainChoice(spectra: seq<PeakMap>, plainScore: PeakMap -> real): (r: Result<nat>)
    ensures r.Ok? && spectra != [] ==> r.value < |spectra|
  {
    var ps := PlainScores(spectra, plainScore);
    LowestScanInRange(ps, 1.0);
    if forall i :: 0 <= i < |ps| ==> IsProbability(ps[i]) then Ok(LowestScan(ps, 1.0).bestI) else Err(ProbabilityOutOfRange)
  }

  /** The loop over the reduced spectra when no profile has a site-determining ion in the window. */
  method PlainDepth(spectra: seq<PeakMap>, plainScore: PeakMap -> real) returns (r: Result<nat>)
    ensures r == AsWrittenPlainChoice(spectra, plainScore)
  {
    ghost var ps := PlainScores(spectra, plainScore);
    var bestP := 0.0;
    var bestI := 0;
    for i := 0 to |spectra|
      invariant Lowest(bestP, bestI) == LowestScan(ps[..i], 0.0)
      invariant forall k :: 0 <= k < i ==> IsProbability(ps[k])
    {
      assert ps[..i + 1][..i] == ps[..i];
      var currentSpectrum := spectra[i];
      var bigP := plainScore(currentSpectrum);
      if !IsProbability(bigP) {
        assert !IsProbability(ps[i]);
        return Err(ProbabilityOutOfRange);
      }
      if bigP < bestP {
        bestP := bigP;
        bestI := i;
      }
    }
    assert ps[..|spectra|] == ps;
    return Ok(bestI);
  }

  lemma {:induction false} LowestScanOfProbabilities(scores: seq<real>)
    requires forall i :: 0 <= i < |scores| ==> scores[i] >= 0.0
    ensures LowestScan(scores, 0.0) == Lowest(0.0, 0)
  {
    if scores != [] {
      LowestScanOfProbabilities(scores[..|scores| - 1]);
    }
  }

  /**
   * As written, bestP starts at 0.0 and no probability is below it, so the
   * branch without site-determining ions always keeps the first reduced
   * spectrum, unless a score fails the range check.
   */
  lemma PlainChoiceKeepsFirst(spectra: seq<PeakMap>, plainScore: PeakMap -> real)
    ensures AsWrittenPlainChoice(spectra, plainScore) ==
      if forall i :: 0 <= i < |spectra| ==> IsProbability(plainScore(spectra[i])) then Ok(0)
      else Err(ProbabilityOutOfRange)
  {
    var ps := PlainScores(spectra, plainScore);
    assert forall i :: 0 <= i < |ps| ==> ps[i] == plainScore(spectra[i]);
    if forall i :: 0 <= i < |ps| ==> IsProbability(ps[i]) {
      LowestScanOfProbabilities(ps);
    } else {
      var i :| 0 <= i < |ps| && !IsProbability(ps[i]);
      assert !IsProbability(plainScore(spectra[i]));
    }
  }

  /** Scores 0.5 then 0.1: as written the first depth is kept, corrected the second, lower one. */
  lemma AsWrittenIgnoresLowerScore()
    ensures LowestScan([0.5, 0.1], 0.0).bestI == 0
    ensures LowestScan([0.5, 0.1], 1.0).bestI == 1
  {
    assert [0.5, 0.1][..1] == [0.5];
    assert [0.5][..0] == [];
  }

  /**
   * A scan starting from `initial` ends on the first lowest score below
   * `initial`, or stays at index 0 when no score is below `initial`.
   */
  lemma {:induction false} LowestScanFacts(scores: seq<real>, initial: real)
    ensures var c := LowestScan(scores, initial);
      && c.bestP <= initial
      && (forall j :: 0 <= j < |scores| ==> c.bestP <= scores[j])
      && (c.bestP == initial ==> c.bestI == 0)
      && (c.bestP < initial ==>
            c.bestI < |scores| && scores[c.bestI] == c.bestP && forall j :: 0 <= j < c.bestI ==> c.bestP < scores[j])
  {
    if scores != [] {
      var front, last := scores[..|scores| - 1], scores[|scores| - 1];
      LowestScanFacts(front, initial);
      var c := LowestScan(front, initial);
      assert forall j :: 0 <= j < |front| ==> front[j] == scores[j];
      if last < c.bestP {
        assert LowestScan(scores, initial) == Lowest(last, |scores| - 1);
      } else {
        assert LowestScan(scores, initial) == c;
      }
    }
  }

  /** A scan over at least one score keeps an index of one of them. */
  lemma {:induction false} LowestScanInRange(scores: seq<real>, initial: real)
    ensures scores != [] ==> LowestScan(scores, initial).bestI < |scores|
  {
    if |scores| > 1 {
      LowestScanInRange(scores[..|scores| - 1], initial);
    }
  }

  /**
   * The corrected choice: with at least one reduced spectrum, the kept index
   * has the lowest score, and every earlier depth scores strictly higher.
   */
  lemma PlainChoiceLowest(spectra: seq<PeakMap>, plainScore: PeakMap -> real)
    ensures var r := PlainChoice(spectra, plainScore);
      && (r.Err? <==> exists i :: 0 <= i < |spectra| && !IsProbability(plainScore(spectra[i])))
      && (r.Ok? && spectra != [] ==>
            && r.value < |spectra|
            && (forall j :: 0 <= j < |spectra| ==> plainScore(spectra[r.value]) <= plainScore(spectra[j]))
            && (forall j :: 0 <= j < r.value ==> plainScore(spectra[r.value]) < plainScore(spectra[j])))
  {
    var ps := PlainScores(spectra, plainScore);
    assert forall i :: 0 <= i < |ps| ==> ps[i] == plainScore(spectra[i]);
    LowestScanFacts(ps, 1.0);
    if PlainChoice(spectra, plainScore).Err? {
      var i :| 0 <= i < |ps| && !IsProbability(ps[i]);
      assert !IsProbability(plainScore(spectra[i]));
    }
  }

  // ---------------------------------------------------------------------
  // The window branch with site-determining ions
  // ---------------------------------------------------------------------

  /** The delta list of each reduced spectrum, or the first failed range check. */
  function Rows(spectra: seq<PeakMap>, keys: seq<Profile>, ionSets: map<Profile, set<real>>,
                score: (PeakMap, Profile) -> real): (r: Result<seq<seq<Ratio>>>)
    ensures r.Ok? ==> |r.value| == |spectra|
  {
    if spectra == [] then Ok([])
    else
      var prev :- Rows(spectra[..|spectra| - 1], keys, ionSets, score);
      var bigPs :- DepthScoresOf(spectra[|spectra| - 1], keys, ionSets, score);
      Ok(prev + [Deltas(Sort(bigPs, AscendingReals()))])
  }

  /** The depth index kept when some profile has a site-determining ion in the window. */
  function SiteChoice(spectra: seq<PeakMap>, keys: seq<Profile>, ionSets: map<Profile, set<real>>,
                      score: (PeakMap, Profile) -> real): (r: Result<nat>)
    ensures r.Ok? && spectra != [] ==> r.value < |spectra|
  {
    var rows :- Rows(spectra, keys, ionSets, score);
    ChosenDepthBounds(rows);
    Ok(ChosenDepth(rows))
  }

  lemma {:induction false} RowsFailure(spectra: seq<PeakMap>, keys: seq<Profile>, ionSets: map<Profile, set<real>>,
                                       score: (PeakMap, Profile) -> real, n: nat)
    requires n <= |spectra| && Rows(spectra[..n], keys, ionSets, score).Err?
    ensures Rows(spectra, keys, ionSets, score) == Rows(spectra[..n], keys, ionSets, score)
    decreases |spectra| - n
  {
    if n < |spectra| {
      assert spectra[..n + 1][..n] == spectra[..n];
      RowsFailure(spectra, keys, ionSets, score, n + 1);
    } else {
      assert spectra[..n] == spectra;
    }
  }

  /** The deltas of every reduced spectrum are NaN or ratios in [0, 1]. */
  lemma {:induction false} RowsAreRatios(spectra: seq<PeakMap>, keys: seq<Profile>, ionSets: map<Profile, set<real>>,
                                         score: (PeakMap, Profile) -> real)
    requires Rows(spectra, keys, ionSets, score).Ok?
    ensures AllRatios(Rows(spectra, keys, ionSets, score).value)
  {
    if spectra != [] {
      var t := spectra[..|spectra| - 1];
      RowsAreRatios(t, keys, ionSets, score);
      var bigPs := DepthScoresOf(spectra[|spectra| - 1], keys, ionSets, score).value;
      DeltasOfScores(bigPs);
      var rows := Rows(spectra, keys, ionSets, score).value;
      var prev := Rows(t, keys, ionSets, score).value;
      assert rows == prev + [Deltas(Sort(bigPs, AscendingReals()))];
      forall i, j | 0 <= i < |rows| && 0 <= j < |rows[i]| ensures IsRatio(rows[i][j]) {
        if i < |prev| {
          assert rows[i] == prev[i];
        }
      }
    }
  }

  lemma RowsStep(spectra: seq<PeakMap>, keys: seq<Profile>, ionSets: map<Profile, set<real>>,
                 score: (PeakMap, Profile) -> real, i: nat, deltas: seq<seq<Ratio>>)
    requires i < |spectra| && Rows(spectra[..i], keys, ionSets, score) == Ok(deltas)
    ensures var bigPs := DepthScoresOf(spectra[i], keys, ionSets, score);
      Rows(spectra[..i + 1], keys, ionSets, score) ==
        if bigPs.Err? then Err(bigPs.error) else Ok(deltas + [Deltas(Sort(bigPs.value, AscendingReals()))])
  {
    var prefix := spectra[..i + 1];
    assert prefix[..|prefix| - 1] == spectra[..i];
    RowsSnoc(prefix, keys, ionSets, score);
  }

  /** One more reduced spectrum adds its delta list, or stops the rows with its error. */
  lemma RowsSnoc(spectra: seq<PeakMap>, keys: seq<Profile>, ionSets: map<Profile, set<real>>,
                 score: (PeakMap, Profile) -> real)
    requires spectra != []
    ensures var prev := Rows(spectra[..|spectra| - 1], keys, ionSets, score);
      var bigPs := DepthScoresOf(spectra[|spectra| - 1], keys, ionSets, score);
      Rows(spectra, keys, ionSets, score) ==
        if prev.Err? then Err(prev.error)
        else if bigPs.Err? then Err(bigPs.error)
        else Ok(prev.value + [Deltas(Sort(bigPs.value, AscendingReals()))])
  {
  }

  /** The loop over the reduced spectra, then the depth choice, when some profile has a site-determining ion. */
  method SiteDepth(spectra: seq<PeakMap>, keys: seq<Profile>, ionSets: map<Profile, set<real>>,
                   score: (PeakMap, Profile) -> real) returns (r: Result<nat>)
    ensures r == SiteChoice(spectra, keys, ionSets, score)
  {
    var deltas: seq<seq<Ratio>> := [];
    var nDeltas := 0;
    for i := 0 to |spectra|
      invariant Rows(spectra[..i], keys, ionSets, score) == Ok(deltas)
      invariant nDeltas == MaxLength(deltas)
    {
      RowsStep(spectra, keys, ionSets, score, i, deltas);
      var bigPs := DepthScores(spectra[i], keys, ionSets, score);
      if bigPs.Err? {
        RowsFailure(spectra, keys, ionSets, score, i + 1);
        return Err(bigPs.error);
      }
      var currentDeltas := DepthDeltas(bigPs.value);
      assert (deltas + [currentDeltas])[..|deltas|] == deltas;
      if |currentDeltas| > nDeltas {
        nDeltas := |currentDeltas|;
      }
      deltas := deltas + [currentDeltas];
    }
    assert spectra[..|spectra|] == spectra;
    var bestI := ChooseDepth(deltas, nDeltas);
    return Ok(bestI);
  }

  // ---------------------------------------------------------------------
  // The window loop
  // ---------------------------------------------------------------------

  /** What the window loop works on, besides the spectrum's m/z range. */
  datatype WindowInputs = WindowInputs(
    ions: seq<real>,                     // the keys of siteMap, in iteration order
    siteMap: map<real, seq<Profile>>,    // the site-determining ions and the profiles listed under each
    keys: seq<Profile>,                  // possibleProfileKeys
    extract: (real, real) -> seq<Peak>,  // getSubSpectrum(minMz, tempMax), in iteration order
    score: (PeakMap, Profile) -> real,
    plainScore: PeakMap -> real)

  /** The ion list holds keys of the site-determining map, as its key set does. */
  predicate WellFormed(inp: WindowInputs) {
    forall i :: 0 <= i < |inp.ions| ==> inp.ions[i] in inp.siteMap
  }

  /** The chosen depth always indexes one of the reduced spectra of a non-empty window. */
  lemma DepthIndexInRange(peaks: seq<Peak>, keys: seq<Profile>, ionSets: map<Profile, set<real>>,
                          score: (PeakMap, Profile) -> real, plainScore: PeakMap -> real)
    requires peaks != []
    ensures var spectra := Depths(Order(peaks));
      && |spectra| >= 1
      && (SiteChoice(spectra, keys, ionSets, score).Ok? ==> SiteChoice(spectra, keys, ionSets, score).value < |spectra|)
      && (AsWrittenPlainChoice(spectra, plainScore).Ok? ==> AsWrittenPlainChoice(spectra, plainScore).value < |spectra|)
  {
    DepthsNonEmpty(peaks);
  }

  /** A non-empty window has at least one reduced spectrum. */
  lemma DepthsNonEmpty(peaks: seq<Peak>)
    requires peaks != []
    ensures |Depths(Order(peaks))| >= 1
  {
    ReducedSpectraNested(peaks);
  }

  /** The reduced spectrum a non-empty window contributes. */
  function WindowChoice(peaks: seq<Peak>, lo: real, hi: real, inp: WindowInputs): Result<PeakMap>
    requires peaks != [] && WellFormed(inp)
  {
    var spectra := Depths(Order(peaks));
    var ionSets := WindowIons(inp.ions, inp.siteMap, lo, hi);
    DepthsNonEmpty(peaks);
    var bestI :- if ionSets != map[] then SiteChoice(spectra, inp.keys, ionSets, inp.score)
                 else AsWrittenPlainChoice(spectra, inp.plainScore);
    Ok(spectra[bestI])
  }

  /** An upper bound on the number of windows left between minMz and maxMz. */
  function WindowCount(minMz: real, maxMz: real): nat {
    if minMz < maxMz then ((maxMz - minMz) / WINDOW_SIZE).Floor + 1 else 0
  }

  lemma WindowCountStep(minMz: real, maxMz: real)
    requires minMz < maxMz
    ensures WindowCount(minMz + WINDOW_SIZE, maxMz) < WindowCount(minMz, maxMz)
  {
    var x := (maxMz - minMz) / WINDOW_SIZE;
    assert (maxMz - (minMz + WINDOW_SIZE)) / WINDOW_SIZE == x - 1.0;
  }

  /** The reduced spectrum made of the chosen sub-spectra of the windows from minMz on, added to `acc`. */
  function Reduced(minMz: real, maxMz: real, acc: PeakMap, inp: WindowInputs): Result<PeakMap>
    requires WellFormed(inp)
    decreases WindowCount(minMz, maxMz)
  {
    if minMz < maxMz then
      var tempMax := minMz + WINDOW_SIZE;
      var peaks := inp.extract(minMz, tempMax);
      WindowCountStep(minMz, maxMz);
      if peaks == [] then Reduced(tempMax, maxMz, acc, inp)
      else
        var kept :- WindowChoice(peaks, minMz, tempMax, inp);
        Reduced(tempMax, maxMz, acc + kept, inp)
    else Ok(acc)
  }

  /** One window: reduced spectra, the window's ion sets, and the kept depth. */
  method KeptSpectrum(peaks: seq<Peak>, minMz: real, tempMax: real, inp: WindowInputs) returns (r: Result<PeakMap>)
    requires peaks != [] && WellFormed(inp)
    ensures r == WindowChoice(peaks, minMz, tempMax, inp)
  {
    var spectraResult := GetReducedSpectra(peaks);
    var spectra := spectraResult.value;
    var ionSets := WindowIonSets(inp.ions, inp.siteMap, minMz, tempMax);
    var choice: Result<nat>;
    if ionSets != map[] {
      choice := SiteDepth(spectra, inp.keys, ionSets, inp.score);
    } else {
      choice := PlainDepth(spectra, inp.plainScore);
    }
    if choice.Err? {
      return Err(choice.error);
    }
    DepthIndexInRange(peaks, inp.keys, ionSets, inp.score, inp.plainScore);
    return Ok(spectra[choice.value]);
  }

  /**
   * The window loop of getSequenceProbabilities: windows of WINDOW_SIZE from
   * the spectrum's lowest m/z on; each non-empty window puts the peaks of its
   * kept reduced spectrum into the result.
   */
  method ReduceSpectrum(spectrumMinMz: real, spectrumMaxMz: real, inp: WindowInputs) returns (r: Result<PeakMap>)
    requires WellFormed(inp)
    ensures r == Reduced(spectrumMinMz, spectrumMaxMz, map[], inp)
  {
    var minMz, maxMz := spectrumMinMz, spectrumMaxMz;
    var reducedSpectrum: PeakMap := map[];
    ghost var goal := Reduced(spectrumMinMz, spectrumMaxMz, map[], inp);
    while minMz < maxMz
      invariant Reduced(minMz, maxMz, reducedSpectrum, inp) == goal
      decreases WindowCount(minMz, maxMz)
    {
      var tempMax := minMz + WINDOW_SIZE;
      WindowCountStep(minMz, maxMz);
      var extractedPeakList := inp.extract(minMz, tempMax);
      if extractedPeakList != [] {
        var kept := KeptSpectrum(extractedPeakList, minMz, tempMax, inp);
        if kept.Err? {
          return Err(kept.error);
        }
        reducedSpectrum := reducedSpectrum + kept.value;
      }
      minMz := tempMax;
    }
    return Ok(reducedSpectrum);
  }

  /**
   * A window without site-determining ions keeps the sub-spectrum of depth 0,
   * its single most intense peak, unless a plain score is out of range.
   */
  lemma PlainWindowKeepsTopPeak(peaks: seq<Peak>, lo: real, hi: real, inp: WindowInputs)
    requires peaks != [] && WellFormed(inp) && WindowIons(inp.ions, inp.siteMap, lo, hi) == map[]
    ensures var spectra := Depths(Order(peaks));
      var r := WindowChoice(peaks, lo, hi, inp);
      && (r.Err? <==> exists i :: 0 <= i < |spectra| && !IsProbability(inp.plainScore(spectra[i])))
      && (r.Ok? ==> |Order(peaks)| > 0 && r.value == map[Order(peaks)[0].mz := Order(peaks)[0]])
  {
    var spectra := Depths(Order(peaks));
    ReducedSpectraNested(peaks);
    PlainChoiceKeepsFirst(spectra, inp.plainScore);
  }

  /** Every peak of a window's kept sub-spectrum is a peak of the window, under its own m/z. */
  lemma WindowChoicePeaks(peaks: seq<Peak>, lo: real, hi: real, inp: WindowInputs)
    requires peaks != [] && WellFormed(inp) && WindowChoice(peaks, lo, hi, inp).Ok?
    ensures var kept := WindowChoice(peaks, lo, hi, inp).value;
      forall mz :: mz in kept ==> kept[mz].mz == mz && kept[mz] in peaks
  {
    var order := Order(peaks);
    var spectra := Depths(order);
    var ionSets := WindowIons(inp.ions, inp.siteMap, lo, hi);
    DepthIndexInRange(peaks, inp.keys, ionSets, inp.score, inp.plainScore);
    var choice := if ionSets != map[] then SiteChoice(spectra, inp.keys, ionSets, inp.score)
                  else AsWrittenPlainChoice(spectra, inp.plainScore);
    var i := choice.value;
    DepthsAt(order, i);
    SnapshotEntries(order[..i + 1]);
    OrderIsPermutation(peaks);
    forall mz | mz in spectra[i] ensures spectra[i][mz] in peaks {
      var p := spectra[i][mz];
      assert p in order[..i + 1];
      assert p in order;
      assert p in multiset(order);
    }
  }

  /**
   * When every window's peaks come from `all`, so does every peak of the
   * reduced spectrum, each under its own m/z.
   */
  lemma {:induction false} ReducedPeaks(minMz: real, maxMz: real, acc: PeakMap, inp: WindowInputs, all: seq<Peak>)
    requires WellFormed(inp)
    requires forall lo, hi, i :: 0 <= i < |inp.extract(lo, hi)| ==> inp.extract(lo, hi)[i] in all
    requires forall mz :: mz in acc ==> acc[mz].mz == mz && acc[mz] in all
    ensures Reduced(minMz, maxMz, acc, inp).Ok? ==>
      forall mz :: mz in Reduced(minMz, maxMz, acc, inp).value ==>
        Reduced(minMz, maxMz, acc, inp).value[mz].mz == mz && Reduced(minMz, maxMz, acc, inp).value[mz] in all
    decreases WindowCount(minMz, maxMz)
  {
    if minMz < maxMz {
      var tempMax := minMz + WINDOW_SIZE;
      var peaks := inp.extract(minMz, tempMax);
      WindowCountStep(minMz, maxMz);
      if peaks == [] {
        ReducedPeaks(tempMax, maxMz, acc, inp, all);
      } else if WindowChoice(peaks, minMz, tempMax, inp).Ok? {
        var kept := WindowChoice(peaks, minMz, tempMax, inp).value;
        WindowChoicePeaks(peaks, minMz, tempMax, inp);
        forall mz | mz in kept ensures kept[mz] in all {
          var j :| 0 <= j < |peaks| && peaks[j] == kept[mz];
        }
        ReducedPeaks(tempMax, maxMz, acc + kept, inp, all);
      }
    }
  }

  /** The only way the depth rows fail is a score out of range. */
  lemma {:induction false} RowsErrorKind(spectra: seq<PeakMap>, keys: seq<Profile>, ionSets: map<Profile, set<real>>,
                                         score: (PeakMap, Profile) -> real)
    ensures Rows(spectra, keys, ionSets, score).Err? ==> Rows(spectra, keys, ionSets, score).error == ProbabilityOutOfRange
  {
    if spectra != [] {
      RowsErrorKind(spectra[..|spectra| - 1], keys, ionSets, score);
    }
  }

  /** Choosing the depth of one window fails only on a score out of range. */
  lemma WindowChoiceErrors(peaks: seq<Peak>, lo: real, hi: real, inp: WindowInputs)
    requires peaks != [] && WellFormed(inp)
    ensures WindowChoice(peaks, lo, hi, inp).Err? ==> WindowChoice(peaks, lo, hi, inp).error == ProbabilityOutOfRange
  {
    var spectra := Depths(Order(peaks));
    var ionSets := WindowIons(inp.ions, inp.siteMap, lo, hi);
    var choice := if ionSets != map[] then SiteChoice(spectra, inp.keys, ionSets, inp.score)
                  else AsWrittenPlainChoice(spectra, inp.plainScore);
    if ionSets != map[] {
      RowsErrorKind(spectra, inp.keys, ionSets, inp.score);
    }
    assert choice.Err? ==> choice.error == ProbabilityOutOfRange;
    assert WindowChoice(peaks, lo, hi, inp).Err? ==> WindowChoice(peaks, lo, hi, inp).error == choice.error;
  }

  /** The window loop fails only on a score out of range. */
  lemma {:induction false} ReducedErrors(minMz: real, maxMz: real, acc: PeakMap, inp: WindowInputs)
    requires WellFormed(inp)
    ensures Reduced(minMz, maxMz, acc, inp).Err? ==> Reduced(minMz, maxMz, acc, inp).error == ProbabilityOutOfRange
    decreases WindowCount(minMz, maxMz)
  {
    if minMz < maxMz {
      var tempMax := minMz + WINDOW_SIZE;
      var peaks := inp.extract(minMz, tempMax);
      WindowCountStep(minMz, maxMz);
      if peaks == [] {
        ReducedErrors(tempMax, maxMz, acc, inp);
      } else {
        WindowChoiceErrors(peaks, minMz, tempMax, inp);
        var kept := WindowChoice(peaks, minMz, tempMax, inp);
        if kept.Ok? {
          ReducedErrors(tempMax, maxMz, acc + kept.value, inp);
        }
      }
    }
  }
}
