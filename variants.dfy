/**
 * The modified peptides scored for each modification profile
 * (getPossiblePeptidesMap): the unmodified peptide with one variable
 * modification match per profile site, the terminal sites 0 and L+1 being
 * carried by the first and last residues.
 */
module Variants {

  import opened Profiles

  /** A modification match: the PTM name, whether it is variable, and the residue it sits on (1-based). */
  datatype ModificationMatch = ModificationMatch(theoreticPtm: string, variable: bool, site: int)

  /** A peptide: its amino-acid sequence and its modification matches, in the order they were added. */
  datatype Peptide = Peptide(sequence: string, mods: seq<ModificationMatch>)

  /**
   * The residue carrying a modification at profile position `pos` of a
   * peptide of `length` residues: the N-terminus 0 is residue 1, the
   * C-terminus length+1 is residue length, any other position is itself.
   */
  function ResidueIndex(pos: int, length: int): int {
    if pos == 0 then 1 else if pos == length + 1 then length else pos
  }

  /** A profile position of a peptide of `length` >= 1 residues is always mapped onto a residue, and residues onto themselves. */
  lemma ResidueIndexOnResidue(pos: int, length: int)
    requires length >= 1 && 0 <= pos <= length + 1
    ensures 1 <= ResidueIndex(pos, length) <= length
    ensures 1 <= pos <= length ==> ResidueIndex(pos, length) == pos
    ensures pos == 0 ==> ResidueIndex(pos, length) == 1
    ensures pos == length + 1 ==> ResidueIndex(pos, length) == length
  {
  }

  /** The matches added for `profile`: one variable match of `ptm` per position, in profile order. */
  function ProfileMods(ptm: string, profile: Profile, length: int): (r: seq<ModificationMatch>)
    ensures |r| == |profile|
  {
    if profile == [] then []
    else ProfileMods(ptm, profile[..|profile| - 1], length)
         + [ModificationMatch(ptm, true, ResidueIndex(profile[|profile| - 1], length))]
  }

  /** `peptide` with the matches of `profile` added at the end. */
  function WithProfile(peptide: Peptide, ptm: string, profile: Profile): Peptide {
    peptide.(mods := peptide.mods + ProfileMods(ptm, profile, |peptide.sequence|))
  }

  /** The i-th added match is a variable match of `ptm` on the residue of the i-th profile position. */
  lemma {:induction false} ProfileModsAt(ptm: string, profile: Profile, length: int, i: nat)
    requires i < |profile|
    ensures ProfileMods(ptm, profile, length)[i] == ModificationMatch(ptm, true, ResidueIndex(profile[i], length))
  {
    var t := profile[..|profile| - 1];
    if i < |t| {
      ProfileModsAt(ptm, t, length, i);
    }
  }

  /**
   * The variant of `peptide` for `profile`: its sequence is unchanged, it
   * keeps its own matches and then carries one match per profile position,
   * each on a residue (1..L) when the positions are between 0 and L+1.
   */
  lemma WithProfileShape(peptide: Peptide, ptm: string, profile: Profile)
    requires |peptide.sequence| >= 1
    requires forall i :: 0 <= i < |profile| ==> 0 <= profile[i] <= |peptide.sequence| + 1
    ensures var v := WithProfile(peptide, ptm, profile);
      && v.sequence == peptide.sequence
      && |v.mods| == |peptide.mods| + |profile|
      && v.mods[..|peptide.mods|] == peptide.mods
      && forall i :: 0 <= i < |profile| ==>
           && v.mods[|peptide.mods|..][i].theoreticPtm == ptm
           && v.mods[|peptide.mods|..][i].variable
           && 1 <= v.mods[|peptide.mods|..][i].site <= |peptide.sequence|
           && v.mods[|peptide.mods|..][i].site == ResidueIndex(profile[i], |peptide.sequence|)
  {
    var v := WithProfile(peptide, ptm, profile);
    var n := |peptide.sequence|;
    var added := ProfileMods(ptm, profile, n);
    assert v.mods[|peptide.mods|..] == added;
    forall i | 0 <= i < |profile|
      ensures added[i] == ModificationMatch(ptm, true, ResidueIndex(profile[i], n))
      ensures 1 <= ResidueIndex(profile[i], n) <= n
    {
      ProfileModsAt(ptm, profile, n, i);
      ResidueIndexOnResidue(profile[i], n);
    }
    assert v.mods[..|peptide.mods|] == peptide.mods;
  }

  /** The inner loop: adds one modification match per profile position to `peptide`. */
  method AddProfileModifications(peptide: Peptide, ptm: string, profile: Profile) returns (r: Peptide)
    ensures r == WithProfile(peptide, ptm, profile)
  {
    var length := |peptide.sequence|;
    r := peptide;
    for j := 0 to |profile|
      invariant r == WithProfile(peptide, ptm, profile[..j])
    {
      assert profile[..j + 1][..j] == profile[..j];
      r := r.(mods := r.mods + [ModificationMatch(ptm, true, ResidueIndex(profile[j], length))]);
    }
    assert profile[..|profile|] == profile;
  }

  /**
   * getPossiblePeptidesMap: for every profile, the peptide without the
   * scored PTMs (`noModPeptide`) carrying the profile's matches of the
   * representative PTM (the first of the scored PTMs).
   */
  method PossiblePeptidesMap(noModPeptide: Peptide, representativePtm: string, profiles: seq<Profile>)
    returns (result: map<Profile, Peptide>)
    ensures result.Keys == set i | 0 <= i < |profiles| :: profiles[i]
    ensures forall i :: 0 <= i < |profiles| ==>
      result[profiles[i]] == WithProfile(noModPeptide, representativePtm, profiles[i])
  {
    result := map[];
    for i := 0 to |profiles|
      invariant result.Keys == set j | 0 <= j < i :: profiles[j]
      invariant forall j :: 0 <= j < i ==>
        result[profiles[j]] == WithProfile(noModPeptide, representativePtm, profiles[j])
    {
      var tempPeptide := AddProfileModifications(noModPeptide, representativePtm, profiles[i]);
      result := result[profiles[i] := tempPeptide];
    }
  }
}
