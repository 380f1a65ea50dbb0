/**
 * PhosphoRS.filterSpectrum: keeps, in consecutive m/z windows of ten times
 * the MS2 tolerance, only the most intense peaks, so that the random-match
 * probability p stays at most 1.
 */
module SpectrumFilter {

  import opened Outcomes
  import opened Sorting
  import opened Spectra

  const WINDOW_SIZE: real := 100.0

  /** The window width and the number of peaks kept per window, for an MS2 tolerance in Da. */
  function WindowAndMaxPeaks(ms2Tolerance: real): (real, int) {
    if ms2Tolerance <= 10.0 then (10.0 * ms2Tolerance, 10)
    else (WINDOW_SIZE, (WINDOW_SIZE / ms2Tolerance).Floor)  // (int) truncation of a positive quotient
  }

  /** The first `k` elements of `s`, or all of them. */
  function Take(s: seq<real>, k: int): (r: seq<real>)
    ensures |r| == if k < 0 then 0 else if k < |s| then k else |s|
    ensures r <= s
  {
    if k < 0 then [] else if k < |s| then s[..k] else s
  }

  /** The peaks buffered under the intensities `vs`, in that order. */
  function Pick(temp: map<real, Peak>, vs: seq<real>): seq<Peak> {
    if vs == [] then []
    else
      var v := vs[|vs| - 1];
      Pick(temp, vs[..|vs| - 1]) + (if v in temp then [temp[v]] else [])
  }

  /** The buffered peaks of the `k` largest intensities, most intense first. */
  function MostIntense(temp: map<real, Peak>, keys: seq<real>, k: int): seq<Peak> {
    Pick(temp, Take(Sort(keys, DescendingReals()), k))
  }

  /** `m` with the peaks of `ps` put in turn, each under its own m/z. */
  function PutPeaks(m: PeakMap, ps: seq<Peak>): PeakMap {
    if ps == [] then m else PutPeaks(m, ps[..|ps| - 1])[ps[|ps| - 1].mz := ps[|ps| - 1]]
  }

  /**
   * The scan state: the start of the current window, the window's buffer
   * keyed by intensity (with its keys in insertion order) and the peaks kept.
   */
  datatype Scan = Scan(refMz: Option<real>, temp: map<real, Peak>, keys: seq<real>, kept: PeakMap)

  /**
   * Empties the buffer into the kept peaks when a window closes. As written,
   * a buffer of at most maxPeaks peaks is copied with its intensity keys
   * (newMap.putAll(tempMap)); the corrected version puts each peak under its m/z.
   */
  function Flush(st: Scan, maxPeaks: int, asWritten: bool): PeakMap {
    if asWritten && |st.temp| <= maxPeaks then st.kept + st.temp
    else PutPeaks(st.kept, MostIntense(st.temp, st.keys, maxPeaks))
  }

  /** The window bookkeeping for the next m/z: open the first window, or close the current one past its end. */
  function Advance(st: Scan, mz: real, window: real, maxPeaks: int, asWritten: bool): Scan {
    match st.refMz
    case None => st.(refMz := Some(mz))
    case Some(refMz) =>
      if mz > refMz + window then Scan(Some(refMz + window), map[], [], Flush(st, maxPeaks, asWritten))
      else st
  }

  /** One iteration of the loop over the ordered m/z values. */
  function Step(st: Scan, peak: Peak, window: real, maxPeaks: int, asWritten: bool): Scan {
    var st1 := Advance(st, peak.mz, window, maxPeaks, asWritten);
    st1.(temp := st1.temp[peak.intensity := peak],
         keys := if peak.intensity in st1.temp then st1.keys else st1.keys + [peak.intensity])
  }

  function ScanAll(peaks: seq<Peak>, window: real, maxPeaks: int, asWritten: bool): Scan {
    if peaks == [] then Scan(None, map[], [], map[])
    else Step(ScanAll(peaks[..|peaks| - 1], window, maxPeaks, asWritten), peaks[|peaks| - 1], window, maxPeaks, asWritten)
  }

  /** The last window's flush: its most intense peaks join the kept ones. */
  function Final(st: Scan, maxPeaks: int): PeakMap {
    PutPeaks(st.kept, MostIntense(st.temp, st.keys, maxPeaks))
  }

  /** The filtered peak map of `peaks` (the spectrum's peaks in increasing m/z order). */
  function Filtered(peaks: seq<Peak>, ms2Tolerance: real, asWritten: bool): Result<PeakMap> {
    var params := WindowAndMaxPeaks(ms2Tolerance);
    if params.1 < 1 then Err(AllPeaksFiltered)
    else Ok(Final(ScanAll(peaks, params.0, params.1, asWritten), params.1))
  }

  /**
   * filterSpectrum, with the buffer of a closing window put under the peaks'
   * own m/z values. `peaks` are the spectrum's peaks in increasing m/z order
   * (getOrderedMzValues followed by getPeakMap().get).
   */
  method FilterSpectrum(peaks: seq<Peak>, ms2Tolerance: real) returns (r: Result<PeakMap>)
    ensures r == Filtered(peaks, ms2Tolerance, false)
  {
    var window: real, maxPeaks: int;
    if ms2Tolerance <= 10.0 {
      window := 10.0 * ms2Tolerance;
      maxPeaks := 10;
    } else {
      window := WINDOW_SIZE;
      maxPeaks := (window / ms2Tolerance).Floor;
    }
    if maxPeaks < 1 {
      return Err(AllPeaksFiltered);
    }
    var refMz, tempMap, tempKeys, newMap := ScanPeaks(peaks, window, maxPeaks);
    assert (window, maxPeaks) == WindowAndMaxPeaks(ms2Tolerance);
    newMap := PutMostIntense(newMap, tempMap, tempKeys, maxPeaks);
    return Ok(newMap);
  }

  /** filterSpectrum's loop over the ordered m/z values. */
  method ScanPeaks(peaks: seq<Peak>, window: real, maxPeaks: int)
    returns (refMz: Option<real>, tempMap: map<real, Peak>, tempKeys: seq<real>, newMap: PeakMap)
    ensures Scan(refMz, tempMap, tempKeys, newMap) == ScanAll(peaks, window, maxPeaks, false)
    ensures forall j :: 0 <= j < |tempKeys| ==> tempKeys[j] in tempMap
  {
    newMap, tempMap := map[], map[];
    tempKeys := [];  // the key set of tempMap, in insertion order
    refMz := None;
    for i := 0 to |peaks|
      invariant Scan(refMz, tempMap, tempKeys, newMap) == ScanAll(peaks[..i], window, maxPeaks, false)
      invariant forall j :: 0 <= j < |tempKeys| ==> tempKeys[j] in tempMap
    {
      ScanAllStep(peaks, i, window, maxPeaks, false);
      refMz, tempMap, tempKeys, newMap := ScanPeak(refMz, tempMap, tempKeys, newMap, peaks[i], window, maxPeaks);
    }
    assert peaks[..|peaks|] == peaks;
  }

  /** The body of filterSpectrum's loop, for one peak. */
  method ScanPeak(refMz: Option<real>, tempMap: map<real, Peak>, tempKeys: seq<real>, newMap: PeakMap,
                  peak: Peak, window: real, maxPeaks: int)
    returns (refMz': Option<real>, tempMap': map<real, Peak>, tempKeys': seq<real>, newMap': PeakMap)
    requires forall j :: 0 <= j < |tempKeys| ==> tempKeys[j] in tempMap
    ensures Scan(refMz', tempMap', tempKeys', newMap') == Step(Scan(refMz, tempMap, tempKeys, newMap), peak, window, maxPeaks, false)
    ensures forall j :: 0 <= j < |tempKeys'| ==> tempKeys'[j] in tempMap'
  {
    refMz', tempMap', tempKeys', newMap' := refMz, tempMap, tempKeys, newMap;
    if refMz.None? {
      refMz' := Some(peak.mz);
    } else if peak.mz > refMz.value + window {
      newMap' := PutMostIntense(newMap, tempMap, tempKeys, maxPeaks);
      tempMap', tempKeys' := map[], [];
      refMz' := Some(refMz.value + window);
    }
    if peak.intensity !in tempMap' {
      tempKeys' := tempKeys' + [peak.intensity];
    }
    tempMap' := tempMap'[peak.intensity := peak];
  }

  /**
   * Sorts the buffered intensities in decreasing order and puts the peaks of
   * the first min(size, maxPeaks) of them under their m/z.
   */
  method PutMostIntense(newMap: PeakMap, tempMap: map<real, Peak>, tempKeys: seq<real>, maxPeaks: int) returns (r: PeakMap)
    requires forall j :: 0 <= j < |tempKeys| ==> tempKeys[j] in tempMap
    ensures r == PutPeaks(newMap, MostIntense(tempMap, tempKeys, maxPeaks))
  {
    var intensities := Sort(tempKeys, DescendingReals());
    var n := if |intensities| < maxPeaks then |intensities| else maxPeaks;
    if n < 0 {
      n := 0;
    }
    assert Take(intensities, maxPeaks) == intensities[..n];
    r := newMap;
    for i := 0 to n
      invariant r == PutPeaks(newMap, Pick(tempMap, intensities[..i]))
    {
      var intensity := intensities[i];
      SortedMember(tempKeys, DescendingReals(), i);
      var peak := tempMap[intensity];
      PickStep(tempMap, intensities, i);
      PutPeaksSnoc(newMap, Pick(tempMap, intensities[..i]), peak);
      r := r[peak.mz := peak];
    }
  }

  lemma ScanAllStep(peaks: seq<Peak>, i: nat, window: real, maxPeaks: int, asWritten: bool)
    requires i < |peaks|
    ensures ScanAll(peaks[..i + 1], window, maxPeaks, asWritten)
         == Step(ScanAll(peaks[..i], window, maxPeaks, asWritten), peaks[i], window, maxPeaks, asWritten)
  {
    assert peaks[..i + 1][..i] == peaks[..i];
  }

  lemma SortedMember(keys: seq<real>, le: (real, real) -> bool, i: nat)
    requires i < |Sort(keys, le)|
    ensures Sort(keys, le)[i] in keys
  {
    assert Sort(keys, le)[i] in multiset(Sort(keys, le));
  }

  lemma PickStep(temp: map<real, Peak>, vs: seq<real>, i: nat)
    requires i < |vs| && vs[i] in temp
    ensures Pick(temp, vs[..i + 1]) == Pick(temp, vs[..i]) + [temp[vs[i]]]
  {
    assert vs[..i + 1][..i] == vs[..i];
  }

  lemma PutPeaksSnoc(m: PeakMap, ps: seq<Peak>, p: Peak)
    ensures PutPeaks(m, ps + [p]) == PutPeaks(m, ps)[p.mz := p]
  {
    assert (ps + [p])[..|ps|] == ps;
  }

  /** A window's buffer: each peak under its own intensity, with the keys listed once each. */
  predicate BufferOk(temp: map<real, Peak>, keys: seq<real>) {
    && Distinct(keys)
    && (forall j :: 0 <= j < |keys| ==> keys[j] in temp)
    && (forall v :: v in temp ==> v in multiset(keys) && temp[v].intensity == v)
  }

  lemma {:induction false} PickAll(temp: map<real, Peak>, vs: seq<real>)
    requires forall j :: 0 <= j < |vs| ==> vs[j] in temp
    ensures |Pick(temp, vs)| == |vs|
    ensures forall i :: 0 <= i < |vs| ==> Pick(temp, vs)[i] == temp[vs[i]]
  {
    if vs != [] {
      PickAll(temp, vs[..|vs| - 1]);
    }
  }

  /**
   * The peaks a window keeps: min(|buffer|, k) of them, in strictly decreasing
   * intensity, each a buffered peak, and any buffered peak more intense than
   * a kept one is kept before it.
   */
  lemma MostIntenseFacts(temp: map<real, Peak>, keys: seq<real>, k: int)
    requires BufferOk(temp, keys)
    ensures var r := MostIntense(temp, keys, k);
      && |r| == (if k < 0 then 0 else if k < |keys| then k else |keys|)
      && (forall i :: 0 <= i < |r| ==> r[i].intensity in temp && temp[r[i].intensity] == r[i])
      && (forall i, j :: 0 <= i < j < |r| ==> r[i].intensity > r[j].intensity)
      && (forall v, i :: v in temp && 0 <= i < |r| && v > r[i].intensity ==>
            exists j :: 0 <= j < i && r[j].intensity == v)
  {
    MostIntenseAt(temp, keys, k);
    MostIntenseIntensities(temp, keys, k);
    SortedStrictlyDecreasing(keys);
    MostIntenseUpward(temp, keys, k);
  }

  lemma MostIntenseIntensities(temp: map<real, Peak>, keys: seq<real>, k: int)
    requires BufferOk(temp, keys)
    ensures |MostIntense(temp, keys, k)| <= |keys|
    ensures forall i :: 0 <= i < |MostIntense(temp, keys, k)| ==>
      MostIntense(temp, keys, k)[i].intensity == Sort(keys, DescendingReals())[i]
  {
    var S := Sort(keys, DescendingReals());
    var r := MostIntense(temp, keys, k);
    MostIntenseAt(temp, keys, k);
    forall i | 0 <= i < |r| ensures r[i].intensity == S[i] {
      assert S[i] in temp && r[i] == temp[S[i]];
    }
  }

  lemma MostIntenseUpward(temp: map<real, Peak>, keys: seq<real>, k: int)
    requires BufferOk(temp, keys)
    ensures var r := MostIntense(temp, keys, k);
      forall v, i :: v in temp && 0 <= i < |r| && v > r[i].intensity ==>
        exists j :: 0 <= j < i && r[j].intensity == v
  {
    var S := Sort(keys, DescendingReals());
    var r := MostIntense(temp, keys, k);
    MostIntenseAt(temp, keys, k);
    MostIntenseIntensities(temp, keys, k);
    SortedStrictlyDecreasing(keys);
    forall v, i | v in temp && 0 <= i < |r| && v > r[i].intensity
      ensures exists j :: 0 <= j < i && r[j].intensity == v
    {
      assert v in multiset(S);
      var m := SortedIndex(S, v);
      EarlierInDecreasing(S, i, m);
      assert r[m].intensity == v;
    }
  }

  /** A position at which a value of the sequence occurs. */
  lemma SortedIndex(S: seq<real>, v: real) returns (m: nat)
    requires v in multiset(S)
    ensures m < |S| && S[m] == v
  {
    assert v in S;
    m :| 0 <= m < |S| && S[m] == v;
  }

  /** In a strictly decreasing sequence, a value above the one at i sits before i. */
  lemma EarlierInDecreasing(S: seq<real>, i: nat, m: nat)
    requires i < |S| && m < |S| && S[m] > S[i]
    requires forall a, b :: 0 <= a < b < |S| ==> S[a] > S[b]
    ensures m < i
  {
  }

  /** The kept peaks are the buffered peaks of the leading sorted intensities. */
  lemma MostIntenseAt(temp: map<real, Peak>, keys: seq<real>, k: int)
    requires forall j :: 0 <= j < |keys| ==> keys[j] in temp
    ensures |MostIntense(temp, keys, k)| == if k < 0 then 0 else if k < |keys| then k else |keys|
    ensures forall i :: 0 <= i < |keys| ==> Sort(keys, DescendingReals())[i] in temp
    ensures forall i :: 0 <= i < |MostIntense(temp, keys, k)| ==>
      MostIntense(temp, keys, k)[i] == temp[Sort(keys, DescendingReals())[i]]
  {
    var S := Sort(keys, DescendingReals());
    var T := Take(S, k);
    forall j | 0 <= j < |S| ensures S[j] in temp {
      SortedMember(keys, DescendingReals(), j);
    }
    PickAll(temp, T);
  }

  /** Distinct intensities sorted in decreasing order strictly decrease. */
  lemma SortedStrictlyDecreasing(keys: seq<real>)
    requires Distinct(keys)
    ensures forall i, j :: 0 <= i < j < |Sort(keys, DescendingReals())| ==>
      Sort(keys, DescendingReals())[i] > Sort(keys, DescendingReals())[j]
  {
    var S := Sort(keys, DescendingReals());
    OrdersArePreorders();
    SortSorted(keys, DescendingReals());
    PermutationDistinct(keys, S);
    assert forall i, j :: 0 <= i < j < |S| ==> S[i] >= S[j] && S[i] != S[j];
  }

  /** What the scan keeps: buffers stay well formed, and every stored peak is an input peak. */
  ghost predicate ScanOk(st: Scan, peaks: seq<Peak>, asWritten: bool) {
    && BufferOk(st.temp, st.keys)
    && (forall v :: v in st.temp ==> st.temp[v] in peaks)
    && (forall m :: m in st.kept ==> st.kept[m] in peaks)
    && (!asWritten ==> forall m :: m in st.kept ==> st.kept[m].mz == m)
  }

  lemma MostIntenseFromBuffer(temp: map<real, Peak>, keys: seq<real>, k: int, peaks: seq<Peak>)
    requires BufferOk(temp, keys)
    requires forall v :: v in temp ==> temp[v] in peaks
    ensures forall i :: 0 <= i < |MostIntense(temp, keys, k)| ==> MostIntense(temp, keys, k)[i] in peaks
  {
    MostIntenseFacts(temp, keys, k);
  }

  lemma {:induction false} PutPeaksFacts(m: PeakMap, ps: seq<Peak>, peaks: seq<Peak>)
    requires forall x :: x in m ==> m[x] in peaks
    requires forall i :: 0 <= i < |ps| ==> ps[i] in peaks
    ensures forall x :: x in PutPeaks(m, ps) ==> PutPeaks(m, ps)[x] in peaks
    ensures (forall x :: x in m ==> m[x].mz == x) ==>
      forall x :: x in PutPeaks(m, ps) ==> PutPeaks(m, ps)[x].mz == x
  {
    if ps != [] {
      PutPeaksFacts(m, ps[..|ps| - 1], peaks);
    }
  }

  lemma {:induction false} ScanAllOk(peaks: seq<Peak>, window: real, maxPeaks: int, asWritten: bool)
    ensures ScanOk(ScanAll(peaks, window, maxPeaks, asWritten), peaks, asWritten)
  {
    if peaks != [] {
      var t := peaks[..|peaks| - 1];
      ScanAllOk(t, window, maxPeaks, asWritten);
      var st := ScanAll(t, window, maxPeaks, asWritten);
      ScanOkWeaken(st, t, peaks, asWritten);
      StepOk(st, peaks[|peaks| - 1], peaks, window, maxPeaks, asWritten);
    }
  }

  lemma ScanOkWeaken(st: Scan, t: seq<Peak>, peaks: seq<Peak>, asWritten: bool)
    requires ScanOk(st, t, asWritten)
    requires t <= peaks
    ensures ScanOk(st, peaks, asWritten)
  {
    assert forall y :: y in t ==> y in peaks;
  }

  /** A window's flush only stores buffered or kept peaks (under their m/z when corrected). */
  lemma FlushOk(st: Scan, peaks: seq<Peak>, maxPeaks: int, asWritten: bool)
    requires ScanOk(st, peaks, asWritten)
    ensures forall m :: m in Flush(st, maxPeaks, asWritten) ==> Flush(st, maxPeaks, asWritten)[m] in peaks
    ensures !asWritten ==> forall m :: m in Flush(st, maxPeaks, asWritten) ==> Flush(st, maxPeaks, asWritten)[m].mz == m
  {
    if !(asWritten && |st.temp| <= maxPeaks) {
      MostIntenseFromBuffer(st.temp, st.keys, maxPeaks, peaks);
      PutPeaksFacts(st.kept, MostIntense(st.temp, st.keys, maxPeaks), peaks);
    }
  }

  lemma StepOk(st: Scan, x: Peak, peaks: seq<Peak>, window: real, maxPeaks: int, asWritten: bool)
    requires ScanOk(st, peaks, asWritten) && x in peaks
    ensures ScanOk(Step(st, x, window, maxPeaks, asWritten), peaks, asWritten)
  {
    FlushOk(st, peaks, maxPeaks, asWritten);
    var st1 := Advance(st, x.mz, window, maxPeaks, asWritten);
    assert ScanOk(st1, peaks, asWritten);
    BufferPut(st1.temp, st1.keys, x);
  }

  /** Buffering a peak under its intensity keeps the buffer well formed. */
  lemma BufferPut(temp: map<real, Peak>, keys: seq<real>, x: Peak)
    requires BufferOk(temp, keys)
    ensures BufferOk(temp[x.intensity := x], if x.intensity in temp then keys else keys + [x.intensity])
  {
    if x.intensity !in temp {
      forall j | 0 <= j < |keys| ensures keys[j] != x.intensity {
        assert keys[j] in temp;
      }
    }
  }

  /** Every peak the filter keeps is a peak of the spectrum (as written and corrected). */
  lemma FilteredValuesAreInputPeaks(peaks: seq<Peak>, ms2Tolerance: real, asWritten: bool)
    ensures Filtered(peaks, ms2Tolerance, asWritten).Ok? ==>
      forall m :: m in Filtered(peaks, ms2Tolerance, asWritten).value ==>
        Filtered(peaks, ms2Tolerance, asWritten).value[m] in peaks
  {
    var params := WindowAndMaxPeaks(ms2Tolerance);
    if params.1 >= 1 {
      var st := ScanAll(peaks, params.0, params.1, asWritten);
      ScanAllOk(peaks, params.0, params.1, asWritten);
      MostIntenseFromBuffer(st.temp, st.keys, params.1, peaks);
      PutPeaksFacts(st.kept, MostIntense(st.temp, st.keys, params.1), peaks);
    }
  }

  /** The corrected filter yields a genuine peak map: every peak sits under its own m/z. */
  lemma FilteredKeysAreMz(peaks: seq<Peak>, ms2Tolerance: real)
    ensures Filtered(peaks, ms2Tolerance, false).Ok? ==>
      forall m :: m in Filtered(peaks, ms2Tolerance, false).value ==>
        Filtered(peaks, ms2Tolerance, false).value[m].mz == m
  {
    var params := WindowAndMaxPeaks(ms2Tolerance);
    if params.1 >= 1 {
      var st := ScanAll(peaks, params.0, params.1, false);
      ScanAllOk(peaks, params.0, params.1, false);
      MostIntenseFromBuffer(st.temp, st.keys, params.1, peaks);
      PutPeaksFacts(st.kept, MostIntense(st.temp, st.keys, params.1), peaks);
    }
  }

  /** Filtering fails exactly when the tolerance exceeds the window size (fewer than one peak per window). */
  lemma FilterRejectsIff(peaks: seq<Peak>, ms2Tolerance: real, asWritten: bool)
    ensures Filtered(peaks, ms2Tolerance, asWritten).Err? <==> ms2Tolerance > WINDOW_SIZE
    ensures Filtered(peaks, ms2Tolerance, asWritten).Err? ==>
      Filtered(peaks, ms2Tolerance, asWritten).error == AllPeaksFiltered
  {
    if ms2Tolerance > 10.0 {
      var q := WINDOW_SIZE / ms2Tolerance;
      if ms2Tolerance > WINDOW_SIZE {
        assert q < 1.0;
      } else {
        assert q >= 1.0;
      }
    }
  }

  /**
   * As written, a window of at most maxPeaks peaks is copied under intensity
   * keys: a peak of intensity 50 and a later peak at m/z 50 share a key, so
   * the first peak is lost (and key 50.0 first held a peak of m/z 1.0).
   */
  lemma AsWrittenLosesPeak()
    ensures Filtered([Peak(1.0, 50.0), Peak(50.0, 2.0)], 1.0, true) == Ok(map[50.0 := Peak(50.0, 2.0)])
  {
    var a, b := Peak(1.0, 50.0), Peak(50.0, 2.0);
    var s1 := ExampleFirstPeak(true);
    assert Flush(s1, 10, true) == map[50.0 := a];
    var s2 := Scan(Some(11.0), map[2.0 := b], [2.0], map[50.0 := a]);
    assert Step(s1, b, 10.0, 10, true) == s2;
    ExampleLastWindow(s2);
    assert map[50.0 := a][50.0 := b] == map[50.0 := b];
    assert Filtered([a, b], 1.0, true) == Ok(Final(s2, 10));
  }

  /** The corrected filter keeps both peaks of the same input, each under its own m/z. */
  lemma CorrectedKeepsPeak()
    ensures Filtered([Peak(1.0, 50.0), Peak(50.0, 2.0)], 1.0, false)
         == Ok(map[1.0 := Peak(1.0, 50.0), 50.0 := Peak(50.0, 2.0)])
  {
    var a, b := Peak(1.0, 50.0), Peak(50.0, 2.0);
    var s1 := ExampleFirstPeak(false);
    assert Sort([50.0], DescendingReals()) == [50.0];
    assert Pick(s1.temp, [50.0]) == [a];
    assert PutPeaks(map[], [a]) == map[1.0 := a];
    assert Flush(s1, 10, false) == map[1.0 := a];
    var s2 := Scan(Some(11.0), map[2.0 := b], [2.0], map[1.0 := a]);
    assert Step(s1, b, 10.0, 10, false) == s2;
    ExampleLastWindow(s2);
    assert Filtered([a, b], 1.0, false) == Ok(Final(s2, 10));
  }

  /** The example's first peak opens the first window in either filter. */
  lemma ExampleFirstPeak(asWritten: bool) returns (s1: Scan)
    ensures s1 == Scan(Some(1.0), map[50.0 := Peak(1.0, 50.0)], [50.0], map[])
    ensures WindowAndMaxPeaks(1.0) == (10.0, 10)
    ensures ScanAll([Peak(1.0, 50.0), Peak(50.0, 2.0)], 10.0, 10, asWritten) == Step(s1, Peak(50.0, 2.0), 10.0, 10, asWritten)
  {
    var a, b := Peak(1.0, 50.0), Peak(50.0, 2.0);
    var e := Scan(None, map[], [], map[]);
    assert [a][..0] == [];
    assert ScanAll([a], 10.0, 10, asWritten) == Step(e, a, 10.0, 10, asWritten);
    s1 := Scan(Some(1.0), map[50.0 := a], [50.0], map[]);
    assert Step(e, a, 10.0, 10, asWritten) == s1;
    assert [a, b][..1] == [a];
  }

  /** The example's last window holds only its second peak. */
  lemma ExampleLastWindow(s2: Scan)
    requires s2.temp == map[2.0 := Peak(50.0, 2.0)] && s2.keys == [2.0]
    ensures Final(s2, 10) == s2.kept[50.0 := Peak(50.0, 2.0)]
  {
    var b := Peak(50.0, 2.0);
    assert Sort([2.0], DescendingReals()) == [2.0];
    assert Pick(s2.temp, [2.0]) == [b];
    assert PutPeaks(s2.kept, [b]) == s2.kept[50.0 := b];
  }
}
