/**
 * Peaks, peak maps and ion types. A spectrum's peak map is keyed by m/z;
 * the model reduces a peak to its m/z and intensity.
 */
module Spectra {

  import opened Sorting

  datatype Peak = Peak(mz: real, intensity: real)

  type PeakMap = map<real, Peak>

  /** The ion types of Ion.IonType; PhosphoRS only uses peptide fragment ions. */
  datatype IonType =
    | PeptideFragmentIon | TagFragmentIon | ImmoniumIon | PrecursorIon
    | ReporterIon | RelatedIon | ElementaryIon | UnknownIon

  predicate DistinctMz(ps: seq<Peak>) {
    forall i, j :: 0 <= i < j < |ps| ==> ps[i].mz != ps[j].mz
  }

  /**
   * The peak map obtained by putting the peaks of `ps` in turn, each under
   * its own m/z: a later peak replaces an earlier one of the same m/z.
   */
  function Snapshot(ps: seq<Peak>): PeakMap {
    if ps == [] then map[] else Snapshot(ps[..|ps| - 1])[ps[|ps| - 1].mz := ps[|ps| - 1]]
  }

  /** Each peak of `ps` has an entry, and each entry is a peak of `ps` under its own m/z. */
  lemma {:induction false} SnapshotEntries(ps: seq<Peak>)
    ensures forall k :: k in Snapshot(ps) ==> Snapshot(ps)[k].mz == k && Snapshot(ps)[k] in ps
    ensures forall i :: 0 <= i < |ps| ==> ps[i].mz in Snapshot(ps)
  {
    if ps != [] {
      var t := ps[..|ps| - 1];
      SnapshotEntries(t);
      forall i | 0 <= i < |t| ensures ps[i] == t[i] { }
    }
  }

  /** With distinct m/z values every peak keeps its own entry. */
  lemma {:induction false} SnapshotSize(ps: seq<Peak>)
    requires DistinctMz(ps)
    ensures |Snapshot(ps)| == |ps|
  {
    if ps != [] {
      var t, x := ps[..|ps| - 1], ps[|ps| - 1];
      assert DistinctMz(t);
      SnapshotSize(t);
      SnapshotEntries(t);
      forall k | k in Snapshot(t) ensures k != x.mz {
        var i :| 0 <= i < |t| && t[i] == Snapshot(t)[k];
        assert ps[i] == t[i];
      }
    }
  }

  /** Peaks of distinct m/z stay of distinct m/z in any rearrangement. */
  lemma PermutationDistinctMz(a: seq<Peak>, b: seq<Peak>)
    requires multiset(a) == multiset(b)
    requires DistinctMz(a)
    ensures DistinctMz(b)
  {
    assert Distinct(a);
    PermutationDistinct(a, b);
    forall i, j | 0 <= i < j < |b| ensures b[i].mz != b[j].mz {
      assert b[i] in multiset(a) && b[j] in multiset(a);
      var i' :| 0 <= i' < |a| && a[i'] == b[i];
      var j' :| 0 <= j' < |a| && a[j'] == b[j];
      assert i' < j' || j' < i';
    }
  }
}
