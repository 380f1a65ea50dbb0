/**
 * getSiteDeterminingIons: sorts the theoretic fragment-ion m/z values of the
 * modification profiles into "common" ions and "site-determining" ions, the
 * latter listing the profiles (by key) that produce them.
 *
 * As in the source, a single peptide object accumulates the modifications of
 * every profile visited so far, and a profile's m/z value becomes common
 * only while the common map is empty.
 */
module SiteIons {

  import opened Sorting
  import opened Spectra
  import opened Profiles
  import opened Variants

  /** An expected ion: its type and its theoretic m/z at each selected charge, in charge order. */
  datatype ExpectedIon = ExpectedIon(kind: IonType, mzAtCharge: seq<real>)

  /** The m/z values of the peptide fragment ions among `ions`, in order. */
  function FragmentMzs(ions: seq<ExpectedIon>): seq<real> {
    if ions == [] then []
    else
      var ion := ions[|ions| - 1];
      FragmentMzs(ions[..|ions| - 1]) + (if ion.kind == PeptideFragmentIon then ion.mzAtCharge else [])
  }

  /** The distinct values of `xs`, by first occurrence: the contents of the HashSet they are added to. */
  function Dedupe(xs: seq<real>): seq<real> {
    if xs == [] then []
    else
      var d := Dedupe(xs[..|xs| - 1]);
      if xs[|xs| - 1] in d then d else d + [xs[|xs| - 1]]
  }

  /** The set holds each value of `xs` once and nothing else. */
  lemma {:induction false} DedupeFacts(xs: seq<real>)
    ensures Distinct(Dedupe(xs))
    ensures forall v :: v in Dedupe(xs) <==> v in xs
  {
    if xs != [] {
      var t := xs[..|xs| - 1];
      DedupeFacts(t);
      assert xs == t + [xs[|xs| - 1]];
    }
  }

  lemma DedupeSnoc(xs: seq<real>, x: real)
    ensures Dedupe(xs + [x]) == if x in Dedupe(xs) then Dedupe(xs) else Dedupe(xs) + [x]
  {
    assert (xs + [x])[..|xs|] == xs;
  }

  /** Adds `values` in turn to the m/z set `mzs`, which holds the values of `prefix`. */
  method AddMzs(mzs: seq<real>, ghost prefix: seq<real>, values: seq<real>) returns (r: seq<real>)
    requires mzs == Dedupe(prefix)
    ensures r == Dedupe(prefix + values)
  {
    r := mzs;
    assert prefix + values[..0] == prefix;
    for j := 0 to |values|
      invariant r == Dedupe(prefix + values[..j])
    {
      DedupeSnoc(prefix + values[..j], values[j]);
      assert prefix + values[..j + 1] == prefix + values[..j] + [values[j]];
      if values[j] !in r {
        r := r + [values[j]];
      }
    }
    assert values[..|values|] == values;
  }

  /** The m/z set of a profile: every selected charge of every expected peptide fragment ion. */
  method CollectMzs(ions: seq<ExpectedIon>) returns (mzs: seq<real>)
    ensures mzs == Dedupe(FragmentMzs(ions))
  {
    mzs := [];
    for i := 0 to |ions|
      invariant mzs == Dedupe(FragmentMzs(ions[..i]))
    {
      assert ions[..i + 1][..i] == ions[..i];
      if ions[i].kind == PeptideFragmentIon {
        assert FragmentMzs(ions[..i + 1]) == FragmentMzs(ions[..i]) + ions[i].mzAtCharge;
        mzs := AddMzs(mzs, FragmentMzs(ions[..i]), ions[i].mzAtCharge);
      } else {
        assert FragmentMzs(ions[..i + 1]) == FragmentMzs(ions[..i]);
      }
    }
    assert ions[..|ions|] == ions;
  }

  /** The two maps of getSiteDeterminingIons, m/z to the keys of the profiles listed under it. */
  datatype IonMaps = IonMaps(common: map<real, seq<Profile>>, site: map<real, seq<Profile>>)

  /** The first loop's step for one m/z of the profile `key`. */
  function FirstVisit(st: IonMaps, mz: real, key: Profile): IonMaps {
    if st.common == map[] then st.(common := st.common[mz := [key]])
    else if mz !in st.common then st.(site := st.site[mz := (if mz in st.site then st.site[mz] else []) + [key]])
    else st
  }

  /** The first loop over the profile's m/z values. */
  function FirstPass(st: IonMaps, mzs: seq<real>, key: Profile): IonMaps {
    if mzs == [] then st else FirstVisit(FirstPass(st, mzs[..|mzs| - 1], key), mzs[|mzs| - 1], key)
  }

  /**
   * The second loop, over the common m/z values: one the profile lacks moves,
   * with its list, to the site-determining map; one it has gets its key.
   */
  function SecondPass(st: IonMaps, mzs: seq<real>, key: Profile): IonMaps {
    IonMaps(
      map mz | mz in st.common && mz in mzs :: st.common[mz] + [key],
      map mz | mz in st.site.Keys + st.common.Keys && (mz in st.site || mz !in mzs) ::
        if mz in st.common && mz !in mzs then st.common[mz] else st.site[mz])
  }

  /** The peptide after the profiles' modifications were added to it in turn. */
  function Accumulated(base: Peptide, ptm: string, profiles: seq<Profile>): Peptide {
    if profiles == [] then base
    else WithProfile(Accumulated(base, ptm, profiles[..|profiles| - 1]), ptm, profiles[|profiles| - 1])
  }

  /** The m/z set of the last of `profiles`, computed on the accumulated peptide. */
  function ProfileMzs(base: Peptide, ptm: string, profiles: seq<Profile>, expected: Peptide -> seq<ExpectedIon>): seq<real>
    requires profiles != []
  {
    Dedupe(FragmentMzs(expected(Accumulated(base, ptm, profiles))))
  }

  /** Both maps after the profiles were visited in turn. */
  function IonScan(base: Peptide, ptm: string, profiles: seq<Profile>, expected: Peptide -> seq<ExpectedIon>): IonMaps {
    if profiles == [] then IonMaps(map[], map[])
    else
      var prev := IonScan(base, ptm, profiles[..|profiles| - 1], expected);
      var mzs := ProfileMzs(base, ptm, profiles, expected);
      var key := profiles[|profiles| - 1];
      SecondPass(FirstPass(prev, mzs, key), mzs, key)
  }

  /** The result of getSiteDeterminingIons. */
  function SiteDeterminingIons(base: Peptide, ptm: string, profiles: seq<Profile>,
                               expected: Peptide -> seq<ExpectedIon>): map<real, seq<Profile>> {
    IonScan(base, ptm, profiles, expected).site
  }

  /**
   * getSiteDeterminingIons. `expected` gives the annotator's expected ions of
   * a peptide; `representativePtm` is the name of the first scored PTM.
   */
  method GetSiteDeterminingIons(noModPeptide: Peptide, profiles: seq<Profile>, representativePtm: string,
                                expected: Peptide -> seq<ExpectedIon>)
    returns (siteDeterminingIons: map<real, seq<Profile>>)
    ensures siteDeterminingIons == SiteDeterminingIons(noModPeptide, representativePtm, profiles, expected)
  {
    var peptide := noModPeptide;
    var commonIons: map<real, seq<Profile>> := map[];
    siteDeterminingIons := map[];
    for i := 0 to |profiles|
      invariant peptide == Accumulated(noModPeptide, representativePtm, profiles[..i])
      invariant IonMaps(commonIons, siteDeterminingIons) == IonScan(noModPeptide, representativePtm, profiles[..i], expected)
    {
      assert profiles[..i + 1][..i] == profiles[..i];
      peptide := AddProfileModifications(peptide, representativePtm, profiles[i]);
      var mzs := CollectMzs(expected(peptide));
      commonIons, siteDeterminingIons := FirstLoop(commonIons, siteDeterminingIons, mzs, profiles[i]);
      commonIons, siteDeterminingIons := SecondLoop(commonIons, siteDeterminingIons, mzs, profiles[i]);
    }
    assert profiles[..|profiles|] == profiles;
  }

  /** The loop over the profile's m/z values. */
  method FirstLoop(commonIons: map<real, seq<Profile>>, siteDeterminingIons: map<real, seq<Profile>>,
                   mzs: seq<real>, profileKey: Profile)
    returns (common: map<real, seq<Profile>>, site: map<real, seq<Profile>>)
    ensures IonMaps(common, site) == FirstPass(IonMaps(commonIons, siteDeterminingIons), mzs, profileKey)
  {
    common, site := commonIons, siteDeterminingIons;
    for i := 0 to |mzs|
      invariant IonMaps(common, site) == FirstPass(IonMaps(commonIons, siteDeterminingIons), mzs[..i], profileKey)
    {
      assert mzs[..i + 1][..i] == mzs[..i];
      var mz := mzs[i];
      if common == map[] {
        common := common[mz := [profileKey]];
      } else if mz !in common {
        var profiles := if mz in site then site[mz] else [];
        site := site[mz := profiles + [profileKey]];
      }
    }
    assert mzs[..|mzs|] == mzs;
  }

  /**
   * The maps while the second loop runs: the common m/z values still
   * `pending` are untouched, the others are done.
   */
  function SecondPartial(st: IonMaps, mzs: seq<real>, key: Profile, pending: set<real>): IonMaps {
    IonMaps(
      map mz | mz in st.common && (mz in pending || mz in mzs) ::
        if mz in pending then st.common[mz] else st.common[mz] + [key],
      map mz | mz in st.site.Keys + st.common.Keys && (mz in st.site || (mz !in pending && mz !in mzs)) ::
        if mz in st.common && mz !in pending && mz !in mzs then st.common[mz] else st.site[mz])
  }

  lemma SecondPartialStart(st: IonMaps, mzs: seq<real>, key: Profile)
    ensures SecondPartial(st, mzs, key, st.common.Keys) == st
  {
  }

  lemma SecondPartialEnd(st: IonMaps, mzs: seq<real>, key: Profile)
    ensures SecondPartial(st, mzs, key, {}) == SecondPass(st, mzs, key)
  {
  }

  /** Handling one pending m/z changes only its own entries. */
  lemma SecondPartialStep(st: IonMaps, mzs: seq<real>, key: Profile, pending: set<real>, mz: real)
    requires pending <= st.common.Keys && mz in pending
    ensures var cur := SecondPartial(st, mzs, key, pending);
      SecondPartial(st, mzs, key, pending - {mz}) ==
        if mz !in mzs then IonMaps(cur.common - {mz}, cur.site[mz := cur.common[mz]])
        else IonMaps(cur.common[mz := cur.common[mz] + [key]], cur.site)
  {
  }

  /** The loop over a copy of the common m/z values, in the copy's iteration order. */
  method SecondLoop(commonIons: map<real, seq<Profile>>, siteDeterminingIons: map<real, seq<Profile>>,
                    mzs: seq<real>, profileKey: Profile)
    returns (common: map<real, seq<Profile>>, site: map<real, seq<Profile>>)
    ensures IonMaps(common, site) == SecondPass(IonMaps(commonIons, siteDeterminingIons), mzs, profileKey)
  {
    ghost var st := IonMaps(commonIons, siteDeterminingIons);
    common, site := commonIons, siteDeterminingIons;
    var pending := commonIons.Keys;
    SecondPartialStart(st, mzs, profileKey);
    while pending != {}
      invariant pending <= commonIons.Keys
      invariant IonMaps(common, site) == SecondPartial(st, mzs, profileKey, pending)
      decreases |pending|
    {
      var mz := AnyElement(pending);
      SecondPartialStep(st, mzs, profileKey, pending, mz);
      pending := pending - {mz};
      if mz !in mzs {
        site := site[mz := common[mz]];
        common := common - {mz};
      } else {
        common := common[mz := common[mz] + [profileKey]];
      }
    }
    SecondPartialEnd(st, mzs, profileKey);
  }

  /**
   * From empty maps, the first m/z value of a profile becomes the only common
   * ion; every other one becomes site-determining for that profile alone.
   */
  lemma {:induction false} FirstPassFromEmpty(mzs: seq<real>, key: Profile)
    requires Distinct(mzs) && |mzs| >= 1
    ensures FirstPass(IonMaps(map[], map[]), mzs, key)
         == IonMaps(map[mzs[0] := [key]], map mz | mz in mzs[1..] :: [key])
  {
    var t, x := mzs[..|mzs| - 1], mzs[|mzs| - 1];
    if t == [] {
      assert mzs[1..] == [];
    } else {
      assert Distinct(t);
      FirstPassFromEmpty(t, key);
      var st := FirstPass(IonMaps(map[], map[]), t, key);
      assert t[0] == mzs[0];
      assert x !in t by {
        forall i | 0 <= i < |t| ensures t[i] != x {
          assert t[i] == mzs[i];
        }
      }
      assert mzs[0] in st.common;
      assert st.common != map[];
      assert x !in st.common && x !in st.site;
      assert FirstPass(IonMaps(map[], map[]), mzs, key) == FirstVisit(st, x, key);
      var empty: seq<Profile> := [];
      assert empty + [key] == [key];
      assert FirstVisit(st, x, key) == st.(site := st.site[x := [key]]);
      assert mzs[1..] == t[1..] + [x];
      assert st.site[x := [key]] == map mz | mz in mzs[1..] :: [key];
    }
  }

  /**
   * The first profile alone: its first m/z value is common and listed twice
   * under it (once by each loop), and each of its other m/z values is
   * site-determining for it alone.
   */
  lemma FirstProfilePartition(base: Peptide, ptm: string, p: Profile, expected: Peptide -> seq<ExpectedIon>)
    ensures var mzs := ProfileMzs(base, ptm, [p], expected);
      IonScan(base, ptm, [p], expected) ==
        if mzs == [] then IonMaps(map[], map[])
        else IonMaps(map[mzs[0] := [p, p]], map mz | mz in mzs[1..] :: [p])
  {
    var mzs := ProfileMzs(base, ptm, [p], expected);
    assert [p][..0] == [];
    DedupeFacts(FragmentMzs(expected(Accumulated(base, ptm, [p]))));
    assert IonScan(base, ptm, [p], expected) == SecondPass(FirstPass(IonMaps(map[], map[]), mzs, p), mzs, p);
    if mzs != [] {
      FirstPassFromEmpty(mzs, p);
      assert mzs[0] !in mzs[1..] by {
        forall i | 1 <= i < |mzs| ensures mzs[i] != mzs[0] { }
      }
      SecondPassAfterFirst(mzs, p);
    }
  }

  lemma SecondPassAfterFirst(mzs: seq<real>, p: Profile)
    requires |mzs| >= 1 && mzs[0] !in mzs[1..]
    ensures var st := IonMaps(map[mzs[0] := [p]], map mz | mz in mzs[1..] :: [p]);
      SecondPass(st, mzs, p) == IonMaps(map[mzs[0] := [p, p]], st.site)
  {
    var st := IonMaps(map[mzs[0] := [p]], map mz | mz in mzs[1..] :: [p]);
    var r := SecondPass(st, mzs, p);
    assert mzs[0] in mzs;
    assert [p] + [p] == [p, p];
    assert r.common.Keys == {mzs[0]};
    assert r.common == map[mzs[0] := [p, p]];
    assert r.site == st.site;
  }

  lemma {:induction false} FirstPassKeeps(st: IonMaps, mzs: seq<real>, key: Profile, m0: real)
    requires m0 in st.common && m0 !in st.site
    ensures m0 in FirstPass(st, mzs, key).common && m0 !in FirstPass(st, mzs, key).site
  {
    if mzs != [] {
      FirstPassKeeps(st, mzs[..|mzs| - 1], key, m0);
    }
  }

  /**
   * The first profile's first m/z value, the only one it makes common,
   * stays common when every later profile also produces it: it is never
   * site-determining.
   */
  lemma {:induction false} SharedFirstIonStaysCommon(base: Peptide, ptm: string, profiles: seq<Profile>,
                                                     expected: Peptide -> seq<ExpectedIon>)
    requires |profiles| >= 1 && ProfileMzs(base, ptm, profiles[..1], expected) != []
    requires forall i :: 1 <= i <= |profiles| ==>
      ProfileMzs(base, ptm, profiles[..1], expected)[0] in ProfileMzs(base, ptm, profiles[..i], expected)
    ensures var m0 := ProfileMzs(base, ptm, profiles[..1], expected)[0];
      m0 in IonScan(base, ptm, profiles, expected).common && m0 !in SiteDeterminingIons(base, ptm, profiles, expected)
  {
    var m0 := ProfileMzs(base, ptm, profiles[..1], expected)[0];
    var n := |profiles|;
    if n == 1 {
      assert profiles == [profiles[0]] && profiles[..1] == profiles;
      FirstProfilePartition(base, ptm, profiles[0], expected);
      var mzs := ProfileMzs(base, ptm, profiles, expected);
      assert m0 !in mzs[1..] by {
        DedupeFacts(FragmentMzs(expected(Accumulated(base, ptm, profiles))));
        forall i | 1 <= i < |mzs| ensures mzs[i] != m0 { }
      }
    } else {
      var prev := profiles[..n - 1];
      assert prev[..1] == profiles[..1];
      forall i | 1 <= i <= |prev| ensures prev[..i] == profiles[..i] { }
      SharedFirstIonStaysCommon(base, ptm, prev, expected);
      var st := IonScan(base, ptm, prev, expected);
      assert profiles[..n] == profiles;
      var mzs := ProfileMzs(base, ptm, profiles, expected);
      FirstPassKeeps(st, mzs, profiles[n - 1], m0);
    }
  }

  /** Every profile listed in `m` is one of `profiles`. */
  ghost predicate ListsOnly(m: map<real, seq<Profile>>, profiles: seq<Profile>) {
    forall mz, j :: mz in m && 0 <= j < |m[mz]| ==> m[mz][j] in profiles
  }

  /** The m/z values of all the profiles visited. */
  function IonsSeen(base: Peptide, ptm: string, profiles: seq<Profile>, expected: Peptide -> seq<ExpectedIon>): set<real> {
    if profiles == [] then {}
    else
      var mzs := ProfileMzs(base, ptm, profiles, expected);
      IonsSeen(base, ptm, profiles[..|profiles| - 1], expected) + set i | 0 <= i < |mzs| :: mzs[i]
  }

  /** The pairs (m/z, profile) such that the profile produced the m/z value when it was visited. */
  ghost function Produced(base: Peptide, ptm: string, profiles: seq<Profile>, expected: Peptide -> seq<ExpectedIon>)
    : set<(real, Profile)>
  {
    if profiles == [] then {}
    else
      var mzs := ProfileMzs(base, ptm, profiles, expected);
      Produced(base, ptm, profiles[..|profiles| - 1], expected) + set mz | mz in mzs :: (mz, profiles[|profiles| - 1])
  }

  /** Every profile listed in `m` under an m/z value produced that value. */
  ghost predicate ListsProducers(m: map<real, seq<Profile>>, pairs: set<(real, Profile)>) {
    forall mz, j :: mz in m && 0 <= j < |m[mz]| ==> (mz, m[mz][j]) in pairs
  }

  ghost predicate Sound(st: IonMaps, seen: set<real>, profiles: seq<Profile>, pairs: set<(real, Profile)>) {
    && st.common.Keys + st.site.Keys <= seen
    && ListsOnly(st.common, profiles)
    && ListsOnly(st.site, profiles)
    && ListsProducers(st.common, pairs)
    && ListsProducers(st.site, pairs)
  }

  lemma {:induction false} FirstPassSound(st: IonMaps, mzs: seq<real>, key: Profile, seen: set<real>, profiles: seq<Profile>,
                                          pairs: set<(real, Profile)>)
    requires Sound(st, seen, profiles, pairs) && key in profiles
    requires forall i :: 0 <= i < |mzs| ==> mzs[i] in seen && (mzs[i], key) in pairs
    ensures Sound(FirstPass(st, mzs, key), seen, profiles, pairs)
  {
    if mzs != [] {
      FirstPassSound(st, mzs[..|mzs| - 1], key, seen, profiles, pairs);
    }
  }

  lemma SecondPassSound(st: IonMaps, mzs: seq<real>, key: Profile, seen: set<real>, profiles: seq<Profile>,
                        pairs: set<(real, Profile)>)
    requires Sound(st, seen, profiles, pairs) && key in profiles
    requires forall mz :: mz in mzs ==> (mz, key) in pairs
    ensures Sound(SecondPass(st, mzs, key), seen, profiles, pairs)
  {
  }

  lemma SoundWeaken(st: IonMaps, seen: set<real>, more: set<real>, prev: seq<Profile>, profiles: seq<Profile>,
                    pairs: set<(real, Profile)>, morePairs: set<(real, Profile)>)
    requires Sound(st, seen, prev, pairs) && seen <= more && prev <= profiles && pairs <= morePairs
    ensures Sound(st, more, profiles, morePairs)
  {
    assert forall p :: p in prev ==> p in profiles;
  }

  lemma {:induction false} IonScanSound(base: Peptide, ptm: string, profiles: seq<Profile>, expected: Peptide -> seq<ExpectedIon>)
    ensures Sound(IonScan(base, ptm, profiles, expected), IonsSeen(base, ptm, profiles, expected), profiles,
                  Produced(base, ptm, profiles, expected))
  {
    if profiles != [] {
      var prev := profiles[..|profiles| - 1];
      IonScanSound(base, ptm, prev, expected);
      var seen := IonsSeen(base, ptm, profiles, expected);
      var pairs := Produced(base, ptm, profiles, expected);
      var st := IonScan(base, ptm, prev, expected);
      SoundWeaken(st, IonsSeen(base, ptm, prev, expected), seen, prev, profiles, Produced(base, ptm, prev, expected), pairs);
      var mzs := ProfileMzs(base, ptm, profiles, expected);
      var key := profiles[|profiles| - 1];
      forall i | 0 <= i < |mzs|
        ensures mzs[i] in seen && (mzs[i], key) in pairs
      {
        assert mzs[i] in set i | 0 <= i < |mzs| :: mzs[i];
        var mz := mzs[i];
        assert mz in mzs;
        assert (mz, key) in set m | m in mzs :: (m, key);
      }
      FirstPassSound(st, mzs, key, seen, profiles, pairs);
      SecondPassSound(FirstPass(st, mzs, key), mzs, key, seen, profiles, pairs);
    }
  }

  /** A produced pair names a visited profile and an m/z value of that profile's accumulated peptide. */
  lemma {:induction false} ProducedMeaning(base: Peptide, ptm: string, profiles: seq<Profile>,
                                           expected: Peptide -> seq<ExpectedIon>, mz: real, key: Profile)
    requires (mz, key) in Produced(base, ptm, profiles, expected)
    ensures exists i :: 0 <= i < |profiles| && profiles[i] == key && mz in ProfileMzs(base, ptm, profiles[..i + 1], expected)
  {
    var n := |profiles|;
    var prev := profiles[..n - 1];
    if (mz, key) in Produced(base, ptm, prev, expected) {
      ProducedMeaning(base, ptm, prev, expected, mz, key);
      var i :| 0 <= i < |prev| && prev[i] == key && mz in ProfileMzs(base, ptm, prev[..i + 1], expected);
      assert prev[..i + 1] == profiles[..i + 1];
    } else {
      assert profiles[..n] == profiles;
      assert profiles[n - 1] == key && mz in ProfileMzs(base, ptm, profiles[..n], expected);
    }
  }

  /**
   * Every site-determining m/z value is an ion of one of the visited
   * profiles, and every profile listed under it is one of the profiles that
   * produced that m/z value, on the peptide accumulated up to it.
   */
  lemma SiteDeterminingIonsSound(base: Peptide, ptm: string, profiles: seq<Profile>, expected: Peptide -> seq<ExpectedIon>)
    ensures var site := SiteDeterminingIons(base, ptm, profiles, expected);
      && (forall mz :: mz in site ==> mz in IonsSeen(base, ptm, profiles, expected))
      && (forall mz, j :: mz in site && 0 <= j < |site[mz]| ==> site[mz][j] in profiles)
      && (forall mz, j :: mz in site && 0 <= j < |site[mz]| ==>
            exists i :: 0 <= i < |profiles| && profiles[i] == site[mz][j]
                        && mz in ProfileMzs(base, ptm, profiles[..i + 1], expected))
  {
    IonScanSound(base, ptm, profiles, expected);
    var site := SiteDeterminingIons(base, ptm, profiles, expected);
    forall mz, j | mz in site && 0 <= j < |site[mz]|
      ensures exists i :: 0 <= i < |profiles| && profiles[i] == site[mz][j]
                          && mz in ProfileMzs(base, ptm, profiles[..i + 1], expected)
    {
      ProducedMeaning(base, ptm, profiles, expected, mz, site[mz][j]);
    }
  }
}
