/**
 * PhosphoRS.getReducedSpectra: the nested sub-spectra made of the most
 * intense peaks, one more peak at each depth, starting with depth 1.
 */
module ReducedSpectra {

  import opened Outcomes
  import opened Sorting
  import opened Spectra

  /** The maximal depth per window (8 in the original paper). */
  const MAX_DEPTH: nat := 8

  /** The peaks of `ps` of intensity `v`, in list order. */
  function Group(ps: seq<Peak>, v: real): seq<Peak> {
    if ps == [] then []
    else
      var t, x := ps[..|ps| - 1], ps[|ps| - 1];
      Group(t, v) + (if x.intensity == v then [x] else [])
  }

  /** The distinct intensities of `ps`, in order of first occurrence. */
  function Intensities(ps: seq<Peak>): (r: seq<real>)
    ensures Distinct(r)
    ensures forall v :: v in r <==> exists i :: 0 <= i < |ps| && ps[i].intensity == v
  {
    if ps == [] then []
    else
      var t, x := ps[..|ps| - 1], ps[|ps| - 1];
      var r := Intensities(t);
      if x.intensity in r then r else r + [x.intensity]
  }

  /** The groups of the intensities `vs`, one after another. */
  function Grouped(ps: seq<Peak>, vs: seq<real>): seq<Peak> {
    if vs == [] then [] else Grouped(ps, vs[..|vs| - 1]) + Group(ps, vs[|vs| - 1])
  }

  /** The order in which the source adds peaks: by decreasing intensity, ties in list order. */
  function Order(ps: seq<Peak>): seq<Peak> {
    Grouped(ps, Sort(Intensities(ps), DescendingReals()))
  }

  /** The peak maps of the non-empty prefixes of `s`, shortest first. */
  function Snapshots(s: seq<Peak>): (r: seq<PeakMap>)
    ensures |r| == |s|
  {
    if s == [] then [] else Snapshots(s[..|s| - 1]) + [Snapshot(s)]
  }

  /** The sub-spectra of depth 1, 2, ... of `order`, at most MAX_DEPTH + 1 of them. */
  function Depths(order: seq<Peak>): seq<PeakMap> {
    Snapshots(order[..if |order| < MAX_DEPTH + 1 then |order| else MAX_DEPTH + 1])
  }

  /**
   * getReducedSpectra: fails on an empty spectrum; otherwise groups the peaks
   * by intensity, visits the intensities in decreasing order and records the
   * peak map after each added peak, stopping once the depth exceeds MAX_DEPTH.
   */
  method GetReducedSpectra(peaks: seq<Peak>) returns (r: Result<seq<PeakMap>>)
    ensures peaks == [] ==> r == Err(EmptySpectrum)
    ensures peaks != [] ==> r == Ok(Depths(Order(peaks)))
  {
    if peaks == [] {
      return Err(EmptySpectrum);
    }
    var intensityToPeakMap, keys := GroupByIntensity(peaks);
    var intensities := Sort(keys, DescendingReals());
    forall i | 0 <= i < |intensities| ensures intensities[i] in intensityToPeakMap {
      assert intensities[i] in multiset(keys);
      assert intensities[i] in keys;
    }
    var reducedSpectra := CollectDepths(intensities, intensityToPeakMap, peaks);
    return Ok(reducedSpectra);
  }

  /**
   * The depth loop of getReducedSpectra: visits the intensities in the given
   * order and records the peak map after each added peak, stopping once the
   * depth exceeds MAX_DEPTH.
   */
  method CollectDepths(intensities: seq<real>, intensityToPeakMap: map<real, seq<Peak>>, ghost peaks: seq<Peak>)
    returns (reducedSpectra: seq<PeakMap>)
    requires forall i :: 0 <= i < |intensities| ==> intensities[i] in intensityToPeakMap
    requires forall i :: 0 <= i < |intensities| ==> intensityToPeakMap[intensities[i]] == Group(peaks, intensities[i])
    ensures reducedSpectra == Depths(Grouped(peaks, intensities))
  {
    ghost var order := Grouped(peaks, intensities);
    reducedSpectra := [];
    var mzToPeak: PeakMap := map[];
    var depth := 0;
    ghost var added: seq<Peak> := [];
    var a := 0;
    while a < |intensities|
      invariant 0 <= a <= |intensities|
      invariant added == Grouped(peaks, intensities[..a])
      invariant depth == |added| <= MAX_DEPTH
      invariant mzToPeak == Snapshot(added)
      invariant reducedSpectra == Snapshots(added)
    {
      var group := intensityToPeakMap[intensities[a]];
      ghost var before := added;
      reducedSpectra, mzToPeak, depth, added := AddGroup(group, reducedSpectra, mzToPeak, depth, added);
      if depth > MAX_DEPTH {
        DepthsAtOverflow(peaks, intensities, a, before, added);
        return;
      }
      GroupedStep(peaks, intensities, a);
      a := a + 1;
    }
    assert intensities[..|intensities|] == intensities;
    assert order[..|order|] == order;
    assert Depths(order) == Snapshots(added);
  }

  lemma GroupedStep(ps: seq<Peak>, vs: seq<real>, a: nat)
    requires a < |vs|
    ensures Grouped(ps, vs[..a + 1]) == Grouped(ps, vs[..a]) + Group(ps, vs[a])
  {
    assert vs[..a + 1][..a] == vs[..a];
  }

  /** Once MAX_DEPTH + 1 peaks are added, they are the first MAX_DEPTH + 1 of the whole order. */
  lemma DepthsAtOverflow(ps: seq<Peak>, vs: seq<real>, a: nat, before: seq<Peak>, added: seq<Peak>)
    requires a < |vs| && before == Grouped(ps, vs[..a])
    requires |before| <= |added| <= |before| + |Group(ps, vs[a])|
    requires added == before + Group(ps, vs[a])[..|added| - |before|]
    requires |added| == MAX_DEPTH + 1
    ensures Depths(Grouped(ps, vs)) == Snapshots(added)
  {
    var order := Grouped(ps, vs);
    GroupedPrefix(ps, vs, a, |added| - |before|);
    assert added <= order;
    assert order[..MAX_DEPTH + 1] == added;
  }

  /**
   * The inner loop of getReducedSpectra: adds the peaks of one intensity in
   * turn, recording the peak map after each, and stops once the depth
   * exceeds MAX_DEPTH.
   */
  method AddGroup(group: seq<Peak>, reducedSpectra: seq<PeakMap>, mzToPeak: PeakMap, depth: nat, ghost before: seq<Peak>)
    returns (reducedSpectra': seq<PeakMap>, mzToPeak': PeakMap, depth': nat, ghost added: seq<Peak>)
    requires depth == |before| <= MAX_DEPTH
    requires mzToPeak == Snapshot(before) && reducedSpectra == Snapshots(before)
    ensures depth' == |added| && |before| <= |added| <= |before| + |group|
    ensures added == before + group[..|added| - |before|]
    ensures depth' <= MAX_DEPTH ==> added == before + group
    ensures depth' <= MAX_DEPTH + 1
    ensures mzToPeak' == Snapshot(added) && reducedSpectra' == Snapshots(added)
  {
    reducedSpectra', mzToPeak', depth', added := reducedSpectra, mzToPeak, depth, before;
    var b := 0;
    while b < |group|
      invariant 0 <= b <= |group|
      invariant added == before + group[..b]
      invariant depth' == |added| <= MAX_DEPTH
      invariant mzToPeak' == Snapshot(added)
      invariant reducedSpectra' == Snapshots(added)
    {
      var peak := group[b];
      assert (added + [peak])[..|added|] == added;
      assert group[..b + 1] == group[..b] + [peak];
      added := added + [peak];
      mzToPeak' := mzToPeak'[peak.mz := peak];
      depth' := depth' + 1;
      reducedSpectra' := reducedSpectra' + [mzToPeak'];
      if depth' > MAX_DEPTH {
        return;
      }
      b := b + 1;
    }
    assert group[..|group|] == group;
  }

  lemma {:induction false} GroupAbsent(ps: seq<Peak>, v: real)
    requires v !in Intensities(ps)
    ensures Group(ps, v) == []
  {
    if ps != [] {
      var t := ps[..|ps| - 1];
      assert v !in Intensities(t);
      GroupAbsent(t, v);
    }
  }

  /** The first loop of getReducedSpectra: the peak lists per intensity, and the intensities met. */
  method GroupByIntensity(peaks: seq<Peak>) returns (intensityToPeakMap: map<real, seq<Peak>>, keys: seq<real>)
    ensures keys == Intensities(peaks)
    ensures forall v :: v in intensityToPeakMap <==> v in keys
    ensures forall v :: v in intensityToPeakMap ==> intensityToPeakMap[v] == Group(peaks, v)
  {
    intensityToPeakMap := map[];
    keys := [];  // the key set of intensityToPeakMap, in insertion order
    for i := 0 to |peaks|
      invariant keys == Intensities(peaks[..i])
      invariant forall v :: v in intensityToPeakMap <==> v in keys
      invariant forall v :: v in intensityToPeakMap ==> intensityToPeakMap[v] == Group(peaks[..i], v)
    {
      assert peaks[..i + 1][..i] == peaks[..i];
      var peak := peaks[i];
      assert forall v :: Group(peaks[..i + 1], v) == Group(peaks[..i], v) + (if peak.intensity == v then [peak] else []);
      if peak.intensity !in intensityToPeakMap {
        GroupAbsent(peaks[..i], peak.intensity);
        intensityToPeakMap := intensityToPeakMap[peak.intensity := []];
        keys := keys + [peak.intensity];
      }
      intensityToPeakMap := intensityToPeakMap[peak.intensity := intensityToPeakMap[peak.intensity] + [peak]];
    }
    assert peaks[..|peaks|] == peaks;
  }

  /** The peaks of a prefix of the groups, followed by some of the next group, start the order. */
  lemma GroupedPrefix(ps: seq<Peak>, vs: seq<real>, a: nat, b: nat)
    requires a < |vs| && b <= |Group(ps, vs[a])|
    ensures Grouped(ps, vs[..a]) + Group(ps, vs[a])[..b] <= Grouped(ps, vs)
  {
    GroupedPrefixWhole(ps, vs, a + 1);
    assert vs[..a + 1][..a] == vs[..a];
    assert Grouped(ps, vs[..a + 1]) == Grouped(ps, vs[..a]) + Group(ps, vs[a]);
  }

  lemma {:induction false} GroupedPrefixWhole(ps: seq<Peak>, vs: seq<real>, a: nat)
    requires a <= |vs|
    ensures Grouped(ps, vs[..a]) <= Grouped(ps, vs)
    decreases |vs| - a
  {
    if a < |vs| {
      GroupedPrefixWhole(ps, vs, a + 1);
      assert vs[..a + 1][..a] == vs[..a];
    } else {
      assert vs[..a] == vs;
    }
  }

  /** The i-th recorded map holds the first i + 1 peaks. */
  lemma {:induction false} SnapshotsAt(s: seq<Peak>, i: nat)
    requires i < |s|
    ensures Snapshots(s)[i] == Snapshot(s[..i + 1])
    decreases |s|
  {
    if i < |s| - 1 {
      var t := s[..|s| - 1];
      SnapshotsAt(t, i);
      assert t[..i + 1] == s[..i + 1];
    } else {
      assert s[..i + 1] == s;
    }
  }

  // ---------------------------------------------------------------------------
  // The order of addition: a rearrangement of the peaks, by decreasing intensity.

  lemma {:induction false} GroupFacts(ps: seq<Peak>, v: real)
    ensures forall i :: 0 <= i < |Group(ps, v)| ==> Group(ps, v)[i].intensity == v && Group(ps, v)[i] in ps
  {
    if ps != [] {
      var t := ps[..|ps| - 1];
      GroupFacts(t, v);
      assert forall p :: p in t ==> p in ps;
    }
  }

  lemma {:induction false} GroupedFacts(ps: seq<Peak>, vs: seq<real>)
    ensures forall i :: 0 <= i < |Grouped(ps, vs)| ==> Grouped(ps, vs)[i] in ps && Grouped(ps, vs)[i].intensity in vs
  {
    if vs != [] {
      var vs', w := vs[..|vs| - 1], vs[|vs| - 1];
      GroupedFacts(ps, vs');
      GroupFacts(ps, w);
      var a: seq<Peak>, b: seq<Peak> := Grouped(ps, vs'), Group(ps, w);
      forall i | 0 <= i < |a + b| ensures (a + b)[i] in ps && (a + b)[i].intensity in vs {
        if i < |a| {
          assert (a + b)[i] == a[i];
          assert a[i].intensity in vs';
        } else {
          assert (a + b)[i] == b[i - |a|];
        }
      }
    }
  }

  lemma {:induction false} GroupedOfNone(vs: seq<real>)
    ensures Grouped([], vs) == []
  {
    if vs != [] {
      GroupedOfNone(vs[..|vs| - 1]);
    }
  }

  /** Adding a peak to the list adds it once to the groups, when its intensity is listed once. */
  lemma {:induction false} GroupedSnoc(t: seq<Peak>, x: Peak, vs: seq<real>)
    requires Distinct(vs)
    ensures multiset(Grouped(t + [x], vs)) == multiset(Grouped(t, vs)) + (if x.intensity in vs then multiset{x} else multiset{})
  {
    if vs != [] {
      var vs', w := vs[..|vs| - 1], vs[|vs| - 1];
      assert Distinct(vs');
      assert w !in vs';
      assert vs == vs' + [w];
      GroupedSnoc(t, x, vs');
      GroupSnoc(t, x, w);
      var g, h := Grouped(t, vs'), Group(t, w);
      assert Grouped(t + [x], vs) == Grouped(t + [x], vs') + Group(t + [x], w);
      assert multiset(Grouped(t, vs)) == multiset(g) + multiset(h);
    }
  }

  lemma GroupSnoc(t: seq<Peak>, x: Peak, w: real)
    ensures Group(t + [x], w) == Group(t, w) + (if x.intensity == w then [x] else [])
  {
    assert (t + [x])[..|t|] == t;
  }

  lemma {:induction false} GroupedPermutation(ps: seq<Peak>, vs: seq<real>)
    requires Distinct(vs)
    requires forall i :: 0 <= i < |ps| ==> ps[i].intensity in vs
    ensures multiset(Grouped(ps, vs)) == multiset(ps)
  {
    if ps == [] {
      GroupedOfNone(vs);
    } else {
      var t, x := ps[..|ps| - 1], ps[|ps| - 1];
      assert ps == t + [x];
      GroupedPermutation(t, vs);
      GroupedSnoc(t, x, vs);
    }
  }

  /** getReducedSpectra adds every peak once: the order is a rearrangement of the peak list. */
  lemma OrderIsPermutation(ps: seq<Peak>)
    ensures multiset(Order(ps)) == multiset(ps)
    ensures |Order(ps)| == |ps|
  {
    var keys := Intensities(ps);
    var vs := Sort(keys, DescendingReals());
    PermutationDistinct(keys, vs);
    forall i | 0 <= i < |ps| ensures ps[i].intensity in vs {
      assert ps[i].intensity in keys;
      assert ps[i].intensity in multiset(vs);
    }
    GroupedPermutation(ps, vs);
    assert |multiset(Order(ps))| == |multiset(ps)|;
  }

  lemma {:induction false} GroupedNonIncreasing(ps: seq<Peak>, vs: seq<real>)
    requires SortedBy(vs, DescendingReals())
    ensures forall i, j :: 0 <= i < j < |Grouped(ps, vs)| ==> Grouped(ps, vs)[i].intensity >= Grouped(ps, vs)[j].intensity
  {
    if vs != [] {
      var vs', w := vs[..|vs| - 1], vs[|vs| - 1];
      assert SortedBy(vs', DescendingReals());
      GroupedNonIncreasing(ps, vs');
      GroupedFacts(ps, vs');
      GroupFacts(ps, w);
      var a: seq<Peak>, b: seq<Peak> := Grouped(ps, vs'), Group(ps, w);
      forall i, j | 0 <= i < j < |a + b| ensures (a + b)[i].intensity >= (a + b)[j].intensity {
        if j < |a| {
          assert (a + b)[i] == a[i] && (a + b)[j] == a[j];
        } else if i < |a| {
          assert (a + b)[i] == a[i] && (a + b)[j] == b[j - |a|];
          var k :| 0 <= k < |vs'| && vs'[k] == a[i].intensity;
          assert vs[k] == vs'[k];
          assert DescendingReals()(vs[k], vs[|vs| - 1]);
        } else {
          assert (a + b)[i] == b[i - |a|] && (a + b)[j] == b[j - |a|];
        }
      }
    }
  }

  /** Peaks are added in non-increasing intensity order. */
  lemma OrderNonIncreasing(ps: seq<Peak>)
    ensures forall i, j :: 0 <= i < j < |Order(ps)| ==> Order(ps)[i].intensity >= Order(ps)[j].intensity
  {
    OrdersArePreorders();
    SortSorted(Intensities(ps), DescendingReals());
    GroupedNonIncreasing(ps, Sort(Intensities(ps), DescendingReals()));
  }

  /** The spectrum at index i holds the first i + 1 peaks of the order. */
  lemma DepthsAt(order: seq<Peak>, i: nat)
    requires i < |Depths(order)|
    ensures Depths(order)[i] == Snapshot(order[..i + 1])
  {
    var m := if |order| < MAX_DEPTH + 1 then |order| else MAX_DEPTH + 1;
    SnapshotsAt(order[..m], i);
    assert order[..m][..i + 1] == order[..i + 1];
  }

  /**
   * The reduced spectra of a non-empty peak list: min(n, MAX_DEPTH + 1) of
   * them, the first holding the most intense peak, each the previous one with
   * the next peak of the order put in.
   */
  lemma ReducedSpectraNested(ps: seq<Peak>)
    requires ps != []
    ensures |Depths(Order(ps))| == if |ps| < MAX_DEPTH + 1 then |ps| else MAX_DEPTH + 1
    ensures Depths(Order(ps))[0] == map[Order(ps)[0].mz := Order(ps)[0]]
    ensures forall i :: 0 < i < |Depths(Order(ps))| ==>
      Depths(Order(ps))[i] == Depths(Order(ps))[i - 1][Order(ps)[i].mz := Order(ps)[i]]
  {
    var order := Order(ps);
    OrderIsPermutation(ps);
    var d := Depths(order);
    DepthsAt(order, 0);
    assert order[..1] == [order[0]];
    forall i | 0 < i < |d| ensures d[i] == d[i - 1][order[i].mz := order[i]] {
      DepthsStep(order, i);
    }
  }

  /** Each spectrum after the first is the previous one with the next peak put in. */
  lemma DepthsStep(order: seq<Peak>, i: nat)
    requires 0 < i < |Depths(order)|
    ensures Depths(order)[i] == Depths(order)[i - 1][order[i].mz := order[i]]
  {
    DepthsAt(order, i);
    DepthsAt(order, i - 1);
    assert order[..i + 1][..i] == order[..i];
  }

  /** With distinct m/z values the spectrum at index i holds i + 1 peaks. */
  lemma ReducedSpectraSizes(ps: seq<Peak>)
    requires DistinctMz(ps)
    ensures forall i :: 0 <= i < |Depths(Order(ps))| ==> |Depths(Order(ps))[i]| == i + 1
  {
    var order := Order(ps);
    OrderIsPermutation(ps);
    PermutationDistinctMz(ps, order);
    forall i | 0 <= i < |Depths(order)| ensures |Depths(order)[i]| == i + 1 {
      DepthsAt(order, i);
      assert DistinctMz(order[..i + 1]);
      SnapshotSize(order[..i + 1]);
    }
  }
}
