/**
 * The driver of PhosphoRS.getSequenceProbabilities: it checks the input,
 * counts the modifications to place and collects the candidate sites. It
 * then scores every profile on the reduced spectrum, turns the scores into
 * percentages and sums the percentages per site.
 *
 * Sites are numbered as in the source: 0 is the N-terminus, 1..L the
 * residues, L+1 the C-terminus.
 */
module Localisation {

  import opened Outcomes
  import opened Sorting
  import opened Spectra
  import opened Profiles
  import opened Variants
  import opened SiteIons
  import opened SpectrumFilter
  import opened Scoring
  import opened DepthSelection

  /** Where a PTM may sit: PTM.isNTerm, PTM.isCTerm, or on a residue. */
  datatype Terminus = NTerminal | CTerminal | Residue

  /** A scored PTM: its name, its mass and its terminal specificity. */
  datatype Ptm = Ptm(name: string, mass: real, terminus: Terminus)

  // ---------------------------------------------------------------------
  // nPTM: the number of modifications to place
  // ---------------------------------------------------------------------

  /** The number of scored PTMs carrying `name`. */
  function PtmsNamed(ptms: seq<Ptm>, name: string): nat {
    if ptms == [] then 0
    else PtmsNamed(ptms[..|ptms| - 1], name) + (if ptms[|ptms| - 1].name == name then 1 else 0)
  }

  /** nPTM: for every variable modification match, the number of scored PTMs of its name. */
  function PtmCount(mods: seq<ModificationMatch>, ptms: seq<Ptm>): nat {
    if mods == [] then 0
    else
      var m := mods[|mods| - 1];
      PtmCount(mods[..|mods| - 1], ptms) + (if m.variable then PtmsNamed(ptms, m.theoreticPtm) else 0)
  }

  lemma {:induction false} PtmsNamedZero(ptms: seq<Ptm>, name: string)
    ensures PtmsNamed(ptms, name) == 0 <==> forall j :: 0 <= j < |ptms| ==> ptms[j].name != name
  {
    if ptms != [] {
      PtmsNamedZero(ptms[..|ptms| - 1], name);
      assert forall j :: 0 <= j < |ptms| - 1 ==> ptms[..|ptms| - 1][j] == ptms[j];
    }
  }

  /**
   * nPTM is 0, and the scorer refuses the peptide, exactly when no variable
   * modification match of the peptide names one of the scored PTMs.
   */
  lemma {:induction false} PtmCountZero(mods: seq<ModificationMatch>, ptms: seq<Ptm>)
    ensures PtmCount(mods, ptms) == 0 <==>
      forall i, j :: 0 <= i < |mods| && 0 <= j < |ptms| && mods[i].variable ==> ptms[j].name != mods[i].theoreticPtm
  {
    if mods != [] {
      var t := mods[..|mods| - 1];
      PtmCountZero(t, ptms);
      PtmsNamedZero(ptms, mods[|mods| - 1].theoreticPtm);
      assert forall i :: 0 <= i < |t| ==> t[i] == mods[i];
    }
  }

  /** The counting loops of getSequenceProbabilities. */
  method CountPtms(mods: seq<ModificationMatch>, ptms: seq<Ptm>) returns (nPTM: nat)
    ensures nPTM == PtmCount(mods, ptms)
  {
    nPTM := 0;
    if |mods| > 0 {
      for i := 0 to |mods|
        invariant nPTM == PtmCount(mods[..i], ptms)
      {
        assert mods[..i + 1][..i] == mods[..i];
        var modMatch := mods[i];
        if modMatch.variable {
          for j := 0 to |ptms|
            invariant nPTM == PtmCount(mods[..i], ptms) + PtmsNamed(ptms[..j], modMatch.theoreticPtm)
          {
            assert ptms[..j + 1][..j] == ptms[..j];
            if ptms[j].name == modMatch.theoreticPtm {
              nPTM := nPTM + 1;
            }
          }
          assert ptms[..|ptms|] == ptms;
        }
      }
    }
    assert mods[..|mods|] == mods;
  }

  // ---------------------------------------------------------------------
  // The possible sites
  // ---------------------------------------------------------------------

  /** `acc` followed by each of `xs` not met before, in order. */
  function AddNew(acc: seq<int>, xs: seq<int>): seq<int> {
    if xs == [] then acc
    else
      var a := AddNew(acc, xs[..|xs| - 1]);
      if xs[|xs| - 1] in a then a else a + [xs[|xs| - 1]]
  }

  /**
   * The sites one PTM contributes, given its potential residues: the
   * N-terminus 0 when residue 1 is one of them, the C-terminus length+1 when
   * residue `length` is, otherwise every potential residue not listed yet.
   * With `asWritten` a terminal site is added even when it is listed already.
   */
  function AddPtmSites(acc: seq<int>, ptm: Ptm, length: int, potential: seq<int>, asWritten: bool): seq<int> {
    match ptm.terminus
    case NTerminal => if 1 in potential && (asWritten || 0 !in acc) then acc + [0] else acc
    case CTerminal => if length in potential && (asWritten || length + 1 !in acc) then acc + [length + 1] else acc
    case Residue => AddNew(acc, potential)
  }

  /** The sites collected from every PTM in turn, before sorting. */
  function CandidateSites(ptms: seq<Ptm>, length: int, potential: Ptm -> seq<int>, asWritten: bool): seq<int> {
    if ptms == [] then []
    else
      var p := ptms[|ptms| - 1];
      AddPtmSites(CandidateSites(ptms[..|ptms| - 1], length, potential, asWritten), p, length, potential(p), asWritten)
  }

  /** The possible sites, in increasing order (each terminal site listed once). */
  function PossibleSites(ptms: seq<Ptm>, length: int, potential: Ptm -> seq<int>): seq<int> {
    Sort(CandidateSites(ptms, length, potential, false), AscendingInts())
  }

  /** `x` is a site some scored PTM may sit on. */
  ghost predicate IsCandidate(x: int, ptms: seq<Ptm>, length: int, potential: Ptm -> seq<int>) {
    exists j :: 0 <= j < |ptms| && Allows(ptms[j], x, length, potential(ptms[j]))
  }

  predicate Allows(ptm: Ptm, x: int, length: int, potential: seq<int>) {
    match ptm.terminus
    case NTerminal => 1 in potential && x == 0
    case CTerminal => length in potential && x == length + 1
    case Residue => x in potential
  }

  lemma {:induction false} AddNewFacts(acc: seq<int>, xs: seq<int>)
    ensures forall x :: x in AddNew(acc, xs) <==> x in acc || x in xs
    ensures Distinct(acc) ==> Distinct(AddNew(acc, xs))
  {
    if xs != [] {
      var t := xs[..|xs| - 1];
      AddNewFacts(acc, t);
      assert xs == t + [xs[|xs| - 1]];
    }
  }

  /** Every candidate site is a site some PTM allows, and conversely; the corrected list has no repetition. */
  lemma {:induction false} CandidateSitesFacts(ptms: seq<Ptm>, length: int, potential: Ptm -> seq<int>, asWritten: bool)
    ensures forall x :: x in CandidateSites(ptms, length, potential, asWritten) <==> IsCandidate(x, ptms, length, potential)
    ensures !asWritten ==> Distinct(CandidateSites(ptms, length, potential, asWritten))
  {
    if ptms != [] {
      var t := ptms[..|ptms| - 1];
      var p := ptms[|ptms| - 1];
      CandidateSitesFacts(t, length, potential, asWritten);
      var acc := CandidateSites(t, length, potential, asWritten);
      AddNewFacts(acc, potential(p));
      forall x ensures x in CandidateSites(ptms, length, potential, asWritten) <==> IsCandidate(x, ptms, length, potential) {
        if IsCandidate(x, ptms, length, potential) {
          var j :| 0 <= j < |ptms| && Allows(ptms[j], x, length, potential(ptms[j]));
          if j < |t| {
            assert t[j] == ptms[j];
            assert IsCandidate(x, t, length, potential);
          }
        }
        if IsCandidate(x, t, length, potential) {
          var j :| 0 <= j < |t| && Allows(t[j], x, length, potential(t[j]));
          assert ptms[j] == t[j];
        }
        if Allows(p, x, length, potential(p)) {
          assert ptms[|ptms| - 1] == p;
        }
      }
    }
  }

  /** Sorted and without repetition is strictly increasing. */
  lemma SortedDistinctIncreasing(s: seq<int>)
    requires SortedBy(s, AscendingInts()) && Distinct(s)
    ensures StrictlyIncreasing(s)
  {
    forall i, j | 0 <= i < j < |s| ensures s[i] < s[j] {
      assert AscendingInts()(s[i], s[j]);
    }
  }

  /**
   * The possible sites are strictly increasing, and they are exactly the
   * sites some scored PTM allows on the peptide.
   */
  lemma PossibleSitesFacts(ptms: seq<Ptm>, length: int, potential: Ptm -> seq<int>)
    ensures StrictlyIncreasing(PossibleSites(ptms, length, potential))
    ensures forall x :: x in PossibleSites(ptms, length, potential) <==> IsCandidate(x, ptms, length, potential)
  {
    var c := CandidateSites(ptms, length, potential, false);
    var s := PossibleSites(ptms, length, potential);
    CandidateSitesFacts(ptms, length, potential, false);
    OrdersArePreorders();
    SortSorted(c, AscendingInts());
    PermutationDistinct(c, s);
    SortedDistinctIncreasing(s);
    forall x ensures x in s <==> x in c {
      assert x in s <==> x in multiset(s);
      assert x in c <==> x in multiset(c);
    }
  }

  /**
   * As written, two N-terminal PTMs whose potential sites include residue 1
   * both add site 0: the candidate list holds it twice. The corrected rule
   * lists it once.
   */
  lemma TerminalSiteListedTwice()
    ensures var ptms := [Ptm("Acetylation of peptide N-term", 42.0, NTerminal),
                         Ptm("Acetylation of protein N-term", 42.0, NTerminal)];
      var potential := (p: Ptm) => [1];
      && CandidateSites(ptms, 5, potential, true) == [0, 0]
      && CandidateSites(ptms, 5, potential, false) == [0]
  {
    var ptms := [Ptm("Acetylation of peptide N-term", 42.0, NTerminal),
                 Ptm("Acetylation of protein N-term", 42.0, NTerminal)];
    var potential := (p: Ptm) => [1];
    assert ptms[..1] == [ptms[0]];
    assert [ptms[0]][..0] == [];
  }

  /**
   * The loop collecting the possible sites, then Collections.sort. Each
   * terminal site is added only when it is not listed yet, as residue sites
   * are (the source omits this check for terminal sites).
   */
  method GetPossibleSites(ptms: seq<Ptm>, peptideLength: int, potential: Ptm -> seq<int>) returns (possibleSites: seq<int>)
    ensures possibleSites == PossibleSites(ptms, peptideLength, potential)
  {
    possibleSites := [];
    for i := 0 to |ptms|
      invariant possibleSites == CandidateSites(ptms[..i], peptideLength, potential, false)
    {
      assert ptms[..i + 1][..i] == ptms[..i];
      var ptm := ptms[i];
      var sites := potential(ptm);
      if ptm.terminus == NTerminal {
        if 1 in sites && 0 !in possibleSites {
          possibleSites := possibleSites + [0];
        }
      } else if ptm.terminus == CTerminal {
        if peptideLength in sites && peptideLength + 1 !in possibleSites {
          possibleSites := possibleSites + [peptideLength + 1];
        }
      } else {
        ghost var before := possibleSites;
        for j := 0 to |sites|
          invariant possibleSites == AddNew(before, sites[..j])
        {
          assert sites[..j + 1][..j] == sites[..j];
          if sites[j] !in possibleSites {
            possibleSites := possibleSites + [sites[j]];
          }
        }
        assert sites[..|sites|] == sites;
      }
    }
    assert ptms[..|ptms|] == ptms;
    possibleSites := Sort(possibleSites, AscendingInts());
  }

  // ---------------------------------------------------------------------
  // Normalisation: from probabilities to percentages
  // ---------------------------------------------------------------------

  function Sum(xs: seq<real>): real {
    if xs == [] then 0.0 else Sum(xs[..|xs| - 1]) + xs[|xs| - 1]
  }

  lemma SumSnoc(xs: seq<real>, x: real)
    ensures Sum(xs + [x]) == Sum(xs) + x
  {
    assert (xs + [x])[..|xs|] == xs;
  }

  /**
   * The inverse 1/P of each score, after its range check; the first score
   * out of [0, 1] or equal to 0 stops the computation.
   */
  function Inverses(bigPs: seq<real>): Result<seq<real>> {
    if bigPs == [] then Ok([])
    else
      var prev :- Inverses(bigPs[..|bigPs| - 1]);
      var bigP := bigPs[|bigPs| - 1];
      if !IsProbability(bigP) then Err(ProbabilityOutOfRange)
      else if bigP == 0.0 then Err(DivisionByZero)
      else Ok(prev + [1.0 / bigP])
  }

  /** One more score: its range check, its zero check or its inverse appended. */
  lemma InversesStep(bigPs: seq<real>, i: nat, pInvs: seq<real>)
    requires i < |bigPs| && Inverses(bigPs[..i]) == Ok(pInvs)
    ensures !IsProbability(bigPs[i]) ==> Inverses(bigPs[..i + 1]) == Err(ProbabilityOutOfRange)
    ensures IsProbability(bigPs[i]) && bigPs[i] == 0.0 ==> Inverses(bigPs[..i + 1]) == Err(DivisionByZero)
    ensures IsProbability(bigPs[i]) && bigPs[i] != 0.0 ==> Inverses(bigPs[..i + 1]) == Ok(pInvs + [1.0 / bigPs[i]])
  {
    assert bigPs[..i + 1][..i] == bigPs[..i];
  }

  /** Each inverse divided by the total, range-checked, in percent. */
  function Percentages(pInvs: seq<real>, pInvTotal: real): Result<seq<real>>
    requires pInvTotal != 0.0
  {
    if pInvs == [] then Ok([])
    else
      var prev :- Percentages(pInvs[..|pInvs| - 1], pInvTotal);
      var probability := pInvs[|pInvs| - 1] / pInvTotal;
      if !IsProbability(probability) then Err(ProbabilityOutOfRange) else Ok(prev + [probability * 100.0])
  }

  /** The percentage of every profile, from the profiles' scores in order. */
  function Normalised(bigPs: seq<real>): Result<seq<real>> {
    var pInvs :- Inverses(bigPs);
    var pInvTotal := Sum(pInvs);
    if pInvTotal <= 0.0 then Err(NonPositiveNormaliser) else Percentages(pInvs, pInvTotal)
  }

  lemma {:induction false} InversesFacts(bigPs: seq<real>)
    ensures Inverses(bigPs).Ok? <==> forall i :: 0 <= i < |bigPs| ==> 0.0 < bigPs[i] <= 1.0
    ensures Inverses(bigPs).Ok? ==> |Inverses(bigPs).value| == |bigPs|
    ensures Inverses(bigPs).Ok? ==>
      forall i :: 0 <= i < |bigPs| ==> Inverses(bigPs).value[i] == 1.0 / bigPs[i] && Inverses(bigPs).value[i] >= 1.0
    ensures Inverses(bigPs).Err? ==> Inverses(bigPs).error in {ProbabilityOutOfRange, DivisionByZero}
  {
    if bigPs != [] {
      var t := bigPs[..|bigPs| - 1];
      InversesFacts(t);
      assert forall i :: 0 <= i < |t| ==> t[i] == bigPs[i];
      var x := bigPs[|bigPs| - 1];
      if 0.0 < x <= 1.0 {
        InverseAtLeastOne(x);
      }
    }
  }

  lemma InverseAtLeastOne(x: real)
    requires 0.0 < x <= 1.0
    ensures 1.0 / x >= 1.0
  {
  }

  /** When the first `n` scores already fail, the whole list fails the same way. */
  lemma {:induction false} InversesPrefixFails(bigPs: seq<real>, n: nat)
    requires n <= |bigPs| && Inverses(bigPs[..n]).Err?
    ensures Inverses(bigPs) == Inverses(bigPs[..n])
    decreases |bigPs| - n
  {
    if n < |bigPs| {
      assert bigPs[..n + 1][..n] == bigPs[..n];
      InversesPrefixFails(bigPs, n + 1);
    } else {
      assert bigPs[..n] == bigPs;
    }
  }

  lemma {:induction false} PercentagesPrefixFails(pInvs: seq<real>, total: real, n: nat)
    requires total != 0.0
    requires n <= |pInvs| && Percentages(pInvs[..n], total).Err?
    ensures Percentages(pInvs, total) == Percentages(pInvs[..n], total)
    decreases |pInvs| - n
  {
    if n < |pInvs| {
      assert pInvs[..n + 1][..n] == pInvs[..n];
      PercentagesPrefixFails(pInvs, total, n + 1);
    } else {
      assert pInvs[..n] == pInvs;
    }
  }

  /** A sum of non-negative terms bounds each term. */
  lemma {:induction false} SumBoundsTerms(xs: seq<real>)
    requires forall i :: 0 <= i < |xs| ==> xs[i] >= 0.0
    ensures Sum(xs) >= 0.0
    ensures forall i :: 0 <= i < |xs| ==> xs[i] <= Sum(xs)
  {
    if xs != [] {
      SumBoundsTerms(xs[..|xs| - 1]);
      assert forall i :: 0 <= i < |xs| - 1 ==> xs[..|xs| - 1][i] == xs[i];
    }
  }

  /** An inverse over the total lies in [0, 1] when it is at most the total. */
  lemma ShareBounds(x: real, total: real)
    requires total > 0.0 && 0.0 <= x <= total
    ensures 0.0 <= x / total <= 1.0
  {
    Scoring.DivLe(0.0, x, total);
    Scoring.DivLe(x, total, total);
  }

  /** The percentages pass their range checks and are the inverses scaled by 100 / total. */
  lemma {:induction false} PercentagesOk(pInvs: seq<real>, total: real)
    requires total > 0.0
    requires forall i :: 0 <= i < |pInvs| ==> 0.0 <= pInvs[i] <= total
    ensures Percentages(pInvs, total).Ok?
    ensures |Percentages(pInvs, total).value| == |pInvs|
    ensures forall i :: 0 <= i < |pInvs| ==> Percentages(pInvs, total).value[i] == pInvs[i] / total * 100.0
  {
    if pInvs != [] {
      var t := pInvs[..|pInvs| - 1];
      var x := pInvs[|pInvs| - 1];
      assert forall i :: 0 <= i < |t| ==> t[i] == pInvs[i];
      PercentagesOk(t, total);
      ShareBounds(x, total);
    }
  }

  /** The percentages sum to the total's share of the inverses, in percent. */
  lemma {:induction false} PercentagesSum(pInvs: seq<real>, total: real)
    requires total > 0.0
    requires forall i :: 0 <= i < |pInvs| ==> 0.0 <= pInvs[i] <= total
    ensures Percentages(pInvs, total).Ok?
    ensures Sum(Percentages(pInvs, total).value) == Sum(pInvs) / total * 100.0
  {
    PercentagesOk(pInvs, total);
    if pInvs != [] {
      var t := pInvs[..|pInvs| - 1];
      var x := pInvs[|pInvs| - 1];
      assert forall i :: 0 <= i < |t| ==> t[i] == pInvs[i];
      PercentagesSum(t, total);
      ShareBounds(x, total);
      var prev := Percentages(t, total).value;
      var r := prev + [x / total * 100.0];
      assert Percentages(pInvs, total).value == r;
      assert r[..|r| - 1] == prev;
      ScaleAdd(Sum(t), x, total);
    }
  }

  lemma ScaleAdd(a: real, b: real, total: real)
    requires total > 0.0
    ensures a / total * 100.0 + b / total * 100.0 == (a + b) / total * 100.0
  {
  }

  /** Normalisation succeeds exactly when there is a profile and every score lies in (0, 1]. */
  lemma NormalisedOkIff(bigPs: seq<real>)
    ensures Normalised(bigPs).Ok? <==> bigPs != [] && forall i :: 0 <= i < |bigPs| ==> 0.0 < bigPs[i] <= 1.0
    ensures Normalised(bigPs).Ok? ==>
      var pInvs := Inverses(bigPs).value;
      && Inverses(bigPs).Ok? && Sum(pInvs) > 0.0
      && (forall i :: 0 <= i < |pInvs| ==> 0.0 <= pInvs[i] <= Sum(pInvs))
      && Normalised(bigPs) == Percentages(pInvs, Sum(pInvs))
  {
    InversesFacts(bigPs);
    if Inverses(bigPs).Ok? {
      var pInvs := Inverses(bigPs).value;
      SumBoundsTerms(pInvs);
      if bigPs != [] {
        assert pInvs[0] >= 1.0;
        PercentagesOk(pInvs, Sum(pInvs));
      }
    }
  }

  /**
   * The percentages lie in [0, 100], sum to 100, and are inversely
   * proportional to the scores: percentage times score is the same for
   * every profile.
   */
  lemma NormalisedFacts(bigPs: seq<real>)
    requires Normalised(bigPs).Ok?
    ensures var pcts := Normalised(bigPs).value;
      && |pcts| == |bigPs|
      && (forall i :: 0 <= i < |pcts| ==> 0.0 <= pcts[i] <= 100.0)
      && Sum(pcts) == 100.0
      && InverselyProportional(pcts, bigPs)
  {
    NormalisedOkIff(bigPs);
    InversesFacts(bigPs);
    var pInvs := Inverses(bigPs).value;
    var total := Sum(pInvs);
    PercentagesOk(pInvs, total);
    PercentagesSum(pInvs, total);
    var pcts := Percentages(pInvs, total).value;
    assert Normalised(bigPs).value == pcts;
    PercentBounds(pInvs, total, pcts);
    DivSelf(total);
    assert Sum(pcts) == 100.0 by {
      assert Sum(pcts) == total / total * 100.0;
    }
    Proportional(bigPs, pInvs, total, pcts);
  }

  /** Percentage times score is the same for every profile. */
  predicate InverselyProportional(pcts: seq<real>, bigPs: seq<real>)
    requires |pcts| == |bigPs|
  {
    forall i, j :: 0 <= i < |pcts| && 0 <= j < |pcts| ==> pcts[i] * bigPs[i] == pcts[j] * bigPs[j]
  }

  /** Percentages built from inverses are inversely proportional to the scores. */
  lemma Proportional(bigPs: seq<real>, pInvs: seq<real>, total: real, pcts: seq<real>)
    requires total > 0.0 && |pcts| == |pInvs| == |bigPs|
    requires forall i :: 0 <= i < |bigPs| ==> 0.0 < bigPs[i] && pInvs[i] == 1.0 / bigPs[i]
    requires forall i :: 0 <= i < |pInvs| ==> pcts[i] == pInvs[i] / total * 100.0
    ensures InverselyProportional(pcts, bigPs)
  {
    forall i | 0 <= i < |pcts| ensures pcts[i] * bigPs[i] == 100.0 / total {
      InverseScaled(bigPs[i], total);
    }
  }

  lemma PercentBounds(pInvs: seq<real>, total: real, pcts: seq<real>)
    requires total > 0.0 && |pcts| == |pInvs|
    requires forall i :: 0 <= i < |pInvs| ==> 0.0 <= pInvs[i] <= total
    requires forall i :: 0 <= i < |pInvs| ==> pcts[i] == pInvs[i] / total * 100.0
    ensures forall i :: 0 <= i < |pcts| ==> 0.0 <= pcts[i] <= 100.0
  {
    forall i | 0 <= i < |pcts| ensures 0.0 <= pcts[i] <= 100.0 {
      ShareBounds(pInvs[i], total);
    }
  }

  lemma InverseScaled(p: real, total: real)
    requires p > 0.0 && total > 0.0
    ensures (1.0 / p) / total * 100.0 * p == 100.0 / total
  {
    calc {
      (1.0 / p) / total * 100.0 * p;
      (1.0 / p) * p * (100.0 / total);
      100.0 / total;
    }
  }

  /** A score out of range or equal to 0 makes the normalisation fail; so does an empty profile list. */
  lemma NormalisedFailures(bigPs: seq<real>)
    ensures bigPs == [] ==> Normalised(bigPs) == Err(NonPositiveNormaliser)
    ensures (exists i :: 0 <= i < |bigPs| && !IsProbability(bigPs[i])) ==> Normalised(bigPs).Err?
    ensures (exists i :: 0 <= i < |bigPs| && bigPs[i] == 0.0) ==> Normalised(bigPs).Err?
  {
    InversesFacts(bigPs);
  }

  lemma {:induction false} PercentagesErrorKind(pInvs: seq<real>, total: real)
    requires total != 0.0
    ensures Percentages(pInvs, total).Err? ==> Percentages(pInvs, total).error == ProbabilityOutOfRange
  {
    if pInvs != [] {
      PercentagesErrorKind(pInvs[..|pInvs| - 1], total);
    }
  }

  /** The normalisation fails only on a range check, a zero score or a non-positive total. */
  lemma NormalisedErrors(bigPs: seq<real>)
    ensures Normalised(bigPs).Err? ==> Normalised(bigPs).error in {ProbabilityOutOfRange, DivisionByZero, NonPositiveNormaliser}
  {
    InversesFacts(bigPs);
    if Inverses(bigPs).Ok? && Sum(Inverses(bigPs).value) > 0.0 {
      PercentagesErrorKind(Inverses(bigPs).value, Sum(Inverses(bigPs).value));
    }
  }

  // ---------------------------------------------------------------------
  // Aggregation: from profile percentages to site scores
  // ---------------------------------------------------------------------

  /** `scores` after `score` is added to the score of each of `sites`, a site without a score starting from it. */
  function AddToSites(scores: map<int, real>, sites: seq<int>, score: real): map<int, real> {
    if sites == [] then scores
    else
      var prev := AddToSites(scores, sites[..|sites| - 1], score);
      var site := sites[|sites| - 1];
      prev[site := if site in prev then score + prev[site] else score]
  }

  /** The site scores: every profile's percentage added to each of its sites. */
  function SiteScores(profiles: seq<Profile>, percentages: seq<real>): map<int, real>
    requires |profiles| == |percentages|
  {
    if profiles == [] then map[]
    else
      AddToSites(SiteScores(profiles[..|profiles| - 1], percentages[..|percentages| - 1]),
                 profiles[|profiles| - 1], percentages[|percentages| - 1])
  }

  /** Reference definition: the sum of the percentages of the profiles containing `site`. */
  function Contribution(profiles: seq<Profile>, percentages: seq<real>, site: int): real
    requires |profiles| == |percentages|
  {
    if profiles == [] then 0.0
    else
      Contribution(profiles[..|profiles| - 1], percentages[..|percentages| - 1], site)
      + (if site in profiles[|profiles| - 1] then percentages[|percentages| - 1] else 0.0)
  }

  lemma {:induction false} AddToSitesFacts(scores: map<int, real>, sites: seq<int>, score: real)
    requires Distinct(sites)
    ensures AddToSites(scores, sites, score).Keys == scores.Keys + (set x | x in sites)
    ensures forall s :: s in AddToSites(scores, sites, score) ==>
      AddToSites(scores, sites, score)[s] == (if s in scores then scores[s] else 0.0) + (if s in sites then score else 0.0)
  {
    if sites != [] {
      var t := sites[..|sites| - 1];
      assert sites == t + [sites[|sites| - 1]];
      assert Distinct(t);
      AddToSitesFacts(scores, t, score);
    }
  }

  /**
   * With profiles free of repeated sites, a site is scored exactly when some
   * profile contains it, and its score is the sum of the percentages of the
   * profiles containing it.
   */
  lemma {:induction false} SiteScoresAt(profiles: seq<Profile>, percentages: seq<real>)
    requires |profiles| == |percentages|
    requires forall i :: 0 <= i < |profiles| ==> Distinct(profiles[i])
    ensures forall s :: s in SiteScores(profiles, percentages) <==> exists i :: 0 <= i < |profiles| && s in profiles[i]
    ensures forall s :: s in SiteScores(profiles, percentages) ==>
      SiteScores(profiles, percentages)[s] == Contribution(profiles, percentages, s)
  {
    if profiles != [] {
      var t, u := profiles[..|profiles| - 1], percentages[..|percentages| - 1];
      var last := profiles[|profiles| - 1];
      assert forall i :: 0 <= i < |t| ==> t[i] == profiles[i];
      SiteScoresAt(t, u);
      var prev := SiteScores(t, u);
      AddToSitesFacts(prev, last, percentages[|percentages| - 1]);
      forall s ensures s in SiteScores(profiles, percentages) <==> exists i :: 0 <= i < |profiles| && s in profiles[i] {
        if s in last {
          assert profiles[|profiles| - 1] == last;
        }
      }
      forall s | s in SiteScores(profiles, percentages)
        ensures SiteScores(profiles, percentages)[s] == Contribution(profiles, percentages, s)
      {
        if s !in prev {
          ContributionAbsent(t, u, s);
        }
      }
    }
  }

  lemma {:induction false} ContributionAbsent(profiles: seq<Profile>, percentages: seq<real>, site: int)
    requires |profiles| == |percentages|
    requires forall i :: 0 <= i < |profiles| ==> site !in profiles[i]
    ensures Contribution(profiles, percentages, site) == 0.0
  {
    if profiles != [] {
      ContributionAbsent(profiles[..|profiles| - 1], percentages[..|percentages| - 1], site);
    }
  }

  /** When the sites are exactly the nPTM possible sites, the single profile gives each of them 100. */
  lemma SingleProfileScores(sites: seq<int>)
    requires Distinct(sites)
    ensures SiteScores([sites], [100.0]) == map s | s in sites :: 100.0
  {
    AddToSitesFacts(map[], sites, 100.0);
    assert [sites][..0] == [];
    assert [100.0][..0] == [];
  }

  /** The aggregation loops of getSequenceProbabilities, over the profiles in order. */
  method AggregateScores(profiles: seq<Profile>, percentages: seq<real>) returns (scores: map<int, real>)
    requires |profiles| == |percentages|
    ensures scores == SiteScores(profiles, percentages)
  {
    scores := map[];
    for i := 0 to |profiles|
      invariant scores == SiteScores(profiles[..i], percentages[..i])
    {
      assert profiles[..i + 1][..i] == profiles[..i];
      assert percentages[..i + 1][..i] == percentages[..i];
      var score := percentages[i];
      var sites := profiles[i];
      ghost var before := scores;
      for j := 0 to |sites|
        invariant scores == AddToSites(before, sites[..j], score)
      {
        assert sites[..j + 1][..j] == sites[..j];
        var site := sites[j];
        if site !in scores {
          scores := scores[site := score];
        } else {
          var newScore := score + scores[site];
          scores := scores[site := newScore];
        }
      }
      assert sites[..|sites|] == sites;
    }
    assert profiles[..|profiles|] == profiles;
    assert percentages[..|percentages|] == percentages;
  }

  /** The final check: every possible site has a score. */
  method AllSitesScored(possibleSites: seq<int>, scores: map<int, real>) returns (covered: bool)
    ensures covered <==> forall i :: 0 <= i < |possibleSites| ==> possibleSites[i] in scores
  {
    for i := 0 to |possibleSites|
      invariant forall k :: 0 <= k < i ==> possibleSites[k] in scores
    {
      if possibleSites[i] !in scores {
        return false;
      }
    }
    return true;
  }

  /**
   * On strictly increasing sites and 1 <= nPTM <= |sites|, the profiles are
   * free of repeated sites, use only possible sites, and cover every
   * possible site: the final check never fails.
   */
  lemma ProfilesCoverSites(sites: seq<int>, nPTM: nat)
    requires StrictlyIncreasing(sites)
    requires 1 <= nPTM <= |sites|
    ensures var profiles := Layers(sites, nPTM);
      && (forall i :: 0 <= i < |profiles| ==> Distinct(profiles[i]))
      && (forall i, s :: 0 <= i < |profiles| && s in profiles[i] ==> s in sites)
      && (forall s :: s in sites ==> exists i :: 0 <= i < |profiles| && s in profiles[i])
  {
    var profiles := Layers(sites, nPTM);
    LayersAreCombinations(sites, nPTM);
    LayersEqualCombinations(sites, nPTM);
    forall i | 0 <= i < |profiles| ensures Distinct(profiles[i]) {
      assert IsProfileOf(profiles[i], sites, nPTM);
    }
    forall i, s | 0 <= i < |profiles| && s in profiles[i] ensures s in sites {
      assert IsProfileOf(profiles[i], sites, nPTM);
    }
    forall s | s in sites ensures exists i :: 0 <= i < |profiles| && s in profiles[i] {
      CombinationsCover(sites, nPTM, s);
      var c :| c in Combinations(sites, nPTM) && s in c;
      var i :| 0 <= i < |profiles| && profiles[i] == c;
    }
  }

  /** A site's score lies between 0 and the sum of all percentages when none is negative. */
  lemma {:induction false} ContributionBounds(profiles: seq<Profile>, percentages: seq<real>, site: int)
    requires |profiles| == |percentages|
    requires forall i :: 0 <= i < |percentages| ==> percentages[i] >= 0.0
    ensures 0.0 <= Contribution(profiles, percentages, site) <= Sum(percentages)
  {
    if profiles != [] {
      var u := percentages[..|percentages| - 1];
      assert forall i :: 0 <= i < |u| ==> u[i] == percentages[i];
      ContributionBounds(profiles[..|profiles| - 1], u, site);
    }
  }

  // ---------------------------------------------------------------------
  // What the scoring consults outside this model
  // ---------------------------------------------------------------------

  /**
   * The collaborators of getSequenceProbabilities, as functions: the
   * peptide's potential sites for a PTM, the peptide without the scored
   * PTMs, the annotator's expected ions and their count for a peptide, its
   * ion matches on a spectrum, the binomial upper tail, whether a computed
   * distribution keeps a cache, the iteration order of a set of m/z keys,
   * the m/z range and the sub-spectrum of a peak map, and the number of
   * decimals ((int) -log10(d / w)) + 1.
   */
  datatype Collaborators = Collaborators(
    potentialSites: Ptm -> seq<int>,
    noModPeptide: Peptide,
    expectedIons: Peptide -> seq<ExpectedIon>,
    expectedCount: Peptide -> int,
    matches: (PeakMap, Peptide) -> seq<IonType>,
    tail: (Distribution, int) -> real,
    cacheFilled: Distribution -> bool,
    keyOrder: set<real> -> seq<real>,
    mzRange: PeakMap -> (real, real),
    subSpectrum: (PeakMap, real, real) -> seq<Peak>,
    decimals: (real, real) -> int)

  /** A key-set iteration order lists exactly the keys of the set. */
  ghost predicate ListsKeys(order: set<real> -> seq<real>) {
    forall keys: set<real>, x: real :: x in order(keys) <==> x in keys
  }

  lemma ListedKey(order: set<real> -> seq<real>, keys: set<real>, x: real)
    requires ListsKeys(order) && x in order(keys)
    ensures x in keys
  {
  }

  /** The peptide scored for a profile: the unmodified peptide with the representative PTM on the profile's sites. */
  function Variant(c: Collaborators, representativePtm: string, profile: Profile): Peptide {
    WithProfile(c.noModPeptide, representativePtm, profile)
  }

  /** The p of a window's reduced spectrum. */
  function WindowP(sp: PeakMap, d: real, c: Collaborators): real {
    Getp(|sp|, WINDOW_SIZE, d, c.decimals(d, WINDOW_SIZE))
  }

  /** What the window loop works on, for the filtered spectrum. */
  function WindowsOf(c: Collaborators, peptide: Peptide, representativePtm: string, filtered: PeakMap,
                     profiles: seq<Profile>, siteMap: map<real, seq<Profile>>, d: real): (inp: WindowInputs)
    requires ListsKeys(c.keyOrder)
    ensures WellFormed(inp)
  {
    var ions := c.keyOrder(siteMap.Keys);
    assert forall i :: 0 <= i < |ions| ==> ions[i] in siteMap.Keys by {
      forall i | 0 <= i < |ions| ensures ions[i] in siteMap.Keys {
        ListedKey(c.keyOrder, siteMap.Keys, ions[i]);
      }
    }
    WindowInputs(
      ions,
      siteMap,
      profiles,
      (lo: real, hi: real) => c.subSpectrum(filtered, lo, hi),
      (sp: PeakMap, profile: Profile) =>
        var v := Variant(c, representativePtm, profile);
        ScoreP(WindowP(sp, d, c), c.expectedCount(v), c.matches(sp, v), c.tail),
      (sp: PeakMap) => ScoreP(WindowP(sp, d, c), c.expectedCount(peptide), c.matches(sp, peptide), c.tail))
  }

  /** The p of the reduced spectrum, over the m/z range of the filtered spectrum. */
  function FinalP(filtered: PeakMap, reduced: PeakMap, d: real, c: Collaborators): real {
    var range := c.mzRange(filtered);
    var w := range.1 - range.0;
    Getp(|reduced|, w, d, c.decimals(d, w))
  }

  /** The score of every profile on the reduced spectrum, in profile order. */
  function FinalScores(profiles: seq<Profile>, representativePtm: string, c: Collaborators, reduced: PeakMap, p: real): (r: seq<real>)
    ensures |r| == |profiles|
  {
    if profiles == [] then []
    else
      var v := Variant(c, representativePtm, profiles[|profiles| - 1]);
      FinalScores(profiles[..|profiles| - 1], representativePtm, c, reduced, p)
      + [ScoreP(p, c.expectedCount(v), c.matches(reduced, v), c.tail)]
  }

  /** The percentages of the profiles when there are more candidate sites than modifications. */
  function ProfilePercentages(peptide: Peptide, representativePtm: string, peaks: seq<Peak>, ms2Tolerance: real,
                              d: real, c: Collaborators, profiles: seq<Profile>): (r: Result<seq<real>>)
    requires ListsKeys(c.keyOrder)
    ensures r.Ok? ==> |r.value| == |profiles| && Sum(r.value) == 100.0
    ensures r.Ok? ==> forall i :: 0 <= i < |r.value| ==> 0.0 <= r.value[i] <= 100.0
  {
    var filtered :- Filtered(peaks, ms2Tolerance, false);
    var siteMap := SiteDeterminingIons(c.noModPeptide, representativePtm, profiles, c.expectedIons);
    var range := c.mzRange(filtered);
    var reduced :- Reduced(range.0, range.1, map[], WindowsOf(c, peptide, representativePtm, filtered, profiles, siteMap, d));
    var bigPs := FinalScores(profiles, representativePtm, c, reduced, FinalP(filtered, reduced, d, c));
    if Normalised(bigPs).Ok? then NormalisedFacts(bigPs); Normalised(bigPs) else Normalised(bigPs)
  }

  /** The site scores, once every candidate site is checked to have one. */
  function Covered(sites: seq<int>, scores: map<int, real>): Result<map<int, real>> {
    if forall i :: 0 <= i < |sites| ==> sites[i] in scores then Ok(scores) else Err(SiteNotScored)
  }

  /**
   * getSequenceProbabilities: the localisation score of every candidate
   * site, or the error that stops the computation. `peaks` are the
   * spectrum's peaks in increasing m/z order; `ms2Tolerance` is the
   * fragment ion accuracy in Da used by the filter and `d` the fragment ion
   * accuracy used by the scoring.
   */
  function SequenceProbabilities(peptide: Peptide, ptms: seq<Ptm>, peaks: seq<Peak>, ms2Tolerance: real, d: real,
                                 c: Collaborators): Result<map<int, real>>
    requires ListsKeys(c.keyOrder)
  {
    if ptms == [] then Err(NoPtmGiven)
    else
      var nPTM := PtmCount(peptide.mods, ptms);
      if nPTM == 0 then Err(PtmNotFound)
      else SiteProbabilities(peptide, ptms[0].name, PossibleSites(ptms, |peptide.sequence|, c.potentialSites),
                             nPTM, peaks, ms2Tolerance, d, c)
  }

  /** The site scores once the candidate sites and the number of modifications are known. */
  function SiteProbabilities(peptide: Peptide, representativePtm: string, sites: seq<int>, nPTM: nat,
                             peaks: seq<Peak>, ms2Tolerance: real, d: real, c: Collaborators): Result<map<int, real>>
    requires ListsKeys(c.keyOrder)
  {
    if |sites| > nPTM then
      var profiles := Layers(sites, nPTM);
      var percentages :- ProfilePercentages(peptide, representativePtm, peaks, ms2Tolerance, d, c, profiles);
      Covered(sites, SiteScores(profiles, percentages))
    else if |sites| == nPTM then Covered(sites, SiteScores([sites], [100.0]))
    else Err(TooFewSites)
  }

  /**
   * The input checks: no PTM, no matching variable modification, fewer
   * candidate sites than modifications; with exactly as many sites as
   * modifications every site scores 100.
   */
  lemma SequenceProbabilitiesChecks(peptide: Peptide, ptms: seq<Ptm>, peaks: seq<Peak>, ms2Tolerance: real, d: real,
                                    c: Collaborators)
    requires ListsKeys(c.keyOrder)
    ensures var r := SequenceProbabilities(peptide, ptms, peaks, ms2Tolerance, d, c);
      && (ptms == [] <==> r == Err(NoPtmGiven))
      && (ptms != [] ==> (PtmCount(peptide.mods, ptms) == 0 <==> r == Err(PtmNotFound)))
      && (ptms != [] && PtmCount(peptide.mods, ptms) > 0 ==>
           var sites := PossibleSites(ptms, |peptide.sequence|, c.potentialSites);
           && (|sites| < PtmCount(peptide.mods, ptms) <==> r == Err(TooFewSites))
           && (|sites| == PtmCount(peptide.mods, ptms) ==> r == Ok(map s | s in sites :: 100.0)))
  {
    if ptms != [] && PtmCount(peptide.mods, ptms) > 0 {
      var sites := PossibleSites(ptms, |peptide.sequence|, c.potentialSites);
      PossibleSitesFacts(ptms, |peptide.sequence|, c.potentialSites);
      SiteProbabilitiesChecks(peptide, ptms[0].name, sites, PtmCount(peptide.mods, ptms), peaks, ms2Tolerance, d, c);
      assert SequenceProbabilities(peptide, ptms, peaks, ms2Tolerance, d, c)
        == SiteProbabilities(peptide, ptms[0].name, sites, PtmCount(peptide.mods, ptms), peaks, ms2Tolerance, d, c);
    }
  }

  lemma SiteProbabilitiesChecks(peptide: Peptide, representativePtm: string, sites: seq<int>, nPTM: nat,
                                peaks: seq<Peak>, ms2Tolerance: real, d: real, c: Collaborators)
    requires ListsKeys(c.keyOrder) && StrictlyIncreasing(sites)
    ensures var r := SiteProbabilities(peptide, representativePtm, sites, nPTM, peaks, ms2Tolerance, d, c);
      && (|sites| < nPTM <==> r == Err(TooFewSites))
      && (|sites| == nPTM ==> r == Ok(map s | s in sites :: 100.0))
      && (r.Err? ==> r.error != NoPtmGiven && r.error != PtmNotFound)
  {
    if |sites| > nPTM {
      ProfilePercentagesErrors(peptide, representativePtm, peaks, ms2Tolerance, d, c, Layers(sites, nPTM));
    } else if |sites| == nPTM {
      SingleProfileScores(sites);
    }
  }

  /** The errors of the profile scoring: a filter that keeps nothing, or a score out of range. */
  lemma ProfilePercentagesErrors(peptide: Peptide, representativePtm: string, peaks: seq<Peak>, ms2Tolerance: real,
                                 d: real, c: Collaborators, profiles: seq<Profile>)
    requires ListsKeys(c.keyOrder)
    ensures var r := ProfilePercentages(peptide, representativePtm, peaks, ms2Tolerance, d, c, profiles);
      r.Err? ==> r.error in {AllPeaksFiltered, ProbabilityOutOfRange, DivisionByZero, NonPositiveNormaliser}
  {
    var r := ProfilePercentages(peptide, representativePtm, peaks, ms2Tolerance, d, c, profiles);
    if r.Err? {
      var filtered := Filtered(peaks, ms2Tolerance, false);
      if filtered.Ok? {
        var siteMap := SiteDeterminingIons(c.noModPeptide, representativePtm, profiles, c.expectedIons);
        var range := c.mzRange(filtered.value);
        var inp := WindowsOf(c, peptide, representativePtm, filtered.value, profiles, siteMap, d);
        ReducedErrors(range.0, range.1, map[], inp);
        var reduced := Reduced(range.0, range.1, map[], inp);
        if reduced.Ok? {
          var bigPs := FinalScores(profiles, representativePtm, c, reduced.value, FinalP(filtered.value, reduced.value, d, c));
          NormalisedErrors(bigPs);
        }
      }
    }
  }

  /**
   * When the scoring succeeds, every candidate site and no other is scored,
   * each with a score in [0, 100]; the coverage check never fails.
   */
  lemma SequenceProbabilitiesScores(peptide: Peptide, ptms: seq<Ptm>, peaks: seq<Peak>, ms2Tolerance: real, d: real,
                                    c: Collaborators)
    requires ListsKeys(c.keyOrder)
    ensures var r := SequenceProbabilities(peptide, ptms, peaks, ms2Tolerance, d, c);
      && (r.Err? ==> r.error != SiteNotScored)
      && (r.Ok? ==>
           && ptms != []
           && r.value.Keys == set s | s in PossibleSites(ptms, |peptide.sequence|, c.potentialSites)
           && forall s :: s in r.value ==> 0.0 <= r.value[s] <= 100.0)
  {
    if ptms != [] && PtmCount(peptide.mods, ptms) > 0 {
      var sites := PossibleSites(ptms, |peptide.sequence|, c.potentialSites);
      PossibleSitesFacts(ptms, |peptide.sequence|, c.potentialSites);
      SiteProbabilitiesScores(peptide, ptms[0].name, sites, PtmCount(peptide.mods, ptms), peaks, ms2Tolerance, d, c);
    }
  }

  /**
   * With more sites than modifications, a successful result scores each
   * candidate site with the sum of the percentages of the profiles that
   * contain it.
   */
  lemma SiteProbabilitiesScores(peptide: Peptide, representativePtm: string, sites: seq<int>, nPTM: nat,
                                peaks: seq<Peak>, ms2Tolerance: real, d: real, c: Collaborators)
    requires ListsKeys(c.keyOrder) && StrictlyIncreasing(sites) && nPTM >= 1
    ensures var r := SiteProbabilities(peptide, representativePtm, sites, nPTM, peaks, ms2Tolerance, d, c);
      && (r.Err? ==> r.error != SiteNotScored)
      && (r.Ok? ==> r.value.Keys == set s | s in sites && forall s :: s in r.value ==> 0.0 <= r.value[s] <= 100.0)
      && (r.Ok? && |sites| > nPTM ==>
           var pcts := ProfilePercentages(peptide, representativePtm, peaks, ms2Tolerance, d, c, Layers(sites, nPTM));
           pcts.Ok? && forall s :: s in r.value ==> r.value[s] == Contribution(Layers(sites, nPTM), pcts.value, s))
  {
    var r := SiteProbabilities(peptide, representativePtm, sites, nPTM, peaks, ms2Tolerance, d, c);
    if |sites| > nPTM {
      var profiles := Layers(sites, nPTM);
      ManySitesProbabilities(peptide, representativePtm, sites, nPTM, peaks, ms2Tolerance, d, c);
      ProfilePercentagesErrors(peptide, representativePtm, peaks, ms2Tolerance, d, c, profiles);
      var pr := ProfilePercentages(peptide, representativePtm, peaks, ms2Tolerance, d, c, profiles);
      if pr.Ok? {
        ManySitesScores(sites, nPTM, pr.value);
      }
    } else if |sites| == nPTM {
      SingleProfileScores(sites);
      CoveredWhenKeyed(sites, map s | s in sites :: 100.0);
      assert r == Ok(map s | s in sites :: 100.0);
    }
  }

  /** The branch with more candidate sites than modifications: the scores are the profile contributions. */
  lemma ManySitesProbabilities(peptide: Peptide, representativePtm: string, sites: seq<int>, nPTM: nat,
                               peaks: seq<Peak>, ms2Tolerance: real, d: real, c: Collaborators)
    requires ListsKeys(c.keyOrder) && StrictlyIncreasing(sites) && 1 <= nPTM < |sites|
    ensures var r := SiteProbabilities(peptide, representativePtm, sites, nPTM, peaks, ms2Tolerance, d, c);
      var pcts := ProfilePercentages(peptide, representativePtm, peaks, ms2Tolerance, d, c, Layers(sites, nPTM));
      && (r.Err? ==> pcts.Err? && r.error == pcts.error)
      && (r.Ok? ==> pcts.Ok? && r.value == SiteScores(Layers(sites, nPTM), pcts.value))
      && (pcts.Ok? ==> r.Ok?)
  {
    var r := SiteProbabilities(peptide, representativePtm, sites, nPTM, peaks, ms2Tolerance, d, c);
    var profiles := Layers(sites, nPTM);
    var pr := ProfilePercentages(peptide, representativePtm, peaks, ms2Tolerance, d, c, profiles);
    if pr.Ok? {
      var scores := SiteScores(profiles, pr.value);
      ManySitesScores(sites, nPTM, pr.value);
      CoveredWhenKeyed(sites, scores);
      assert r == Ok(scores);
    } else {
      assert r == Err(pr.error);
    }
  }

  /** Scores keyed by exactly the candidate sites pass the coverage check unchanged. */
  lemma CoveredWhenKeyed(sites: seq<int>, scores: map<int, real>)
    requires scores.Keys == set s | s in sites
    ensures Covered(sites, scores) == Ok(scores)
  {
    forall i | 0 <= i < |sites| ensures sites[i] in scores {
      assert sites[i] in set s | s in sites;
    }
  }

  /** The site scores of the profiles over `sites`, from percentages in [0, 100] summing to 100. */
  lemma ManySitesScores(sites: seq<int>, nPTM: nat, percentages: seq<real>)
    requires StrictlyIncreasing(sites) && 1 <= nPTM <= |sites|
    requires |percentages| == |Layers(sites, nPTM)| && Sum(percentages) == 100.0
    requires forall i :: 0 <= i < |percentages| ==> 0.0 <= percentages[i] <= 100.0
    ensures var scores := SiteScores(Layers(sites, nPTM), percentages);
      && scores.Keys == set s | s in sites
      && forall s :: s in scores ==> scores[s] == Contribution(Layers(sites, nPTM), percentages, s) && 0.0 <= scores[s] <= 100.0
  {
    var profiles := Layers(sites, nPTM);
    ProfilesCoverSites(sites, nPTM);
    SiteScoresAt(profiles, percentages);
    var scores := SiteScores(profiles, percentages);
    forall s ensures s in scores <==> s in sites {
      if s in sites {
        var i :| 0 <= i < |profiles| && s in profiles[i];
      }
    }
    forall s | s in scores ensures 0.0 <= scores[s] <= 100.0 {
      ContributionBounds(profiles, percentages, s);
    }
  }

  lemma ExchangeStep(total: real, before: real, sum: real, sumBefore: real, pct: real, hits: real, k: real)
    requires before == k * sumBefore && total == before + pct * hits && hits == k && sum == sumBefore + pct
    ensures total == k * sum
  {
  }

  /** The sum of the scores of `sites`, a site without a score counting 0. */
  function ScoreTotal(sites: seq<int>, scores: map<int, real>): real {
    if sites == [] then 0.0
    else
      var site := sites[|sites| - 1];
      ScoreTotal(sites[..|sites| - 1], scores) + (if site in scores then scores[site] else 0.0)
  }

  /** The sum over `sites` of their contributions. */
  function ContributionTotal(sites: seq<int>, profiles: seq<Profile>, percentages: seq<real>): real
    requires |profiles| == |percentages|
  {
    if sites == [] then 0.0
    else ContributionTotal(sites[..|sites| - 1], profiles, percentages) + Contribution(profiles, percentages, sites[|sites| - 1])
  }

  /** The number of `sites` that `profile` holds. */
  function Hits(sites: seq<int>, profile: Profile): nat {
    if sites == [] then 0
    else Hits(sites[..|sites| - 1], profile) + (if sites[|sites| - 1] in profile then 1 else 0)
  }

  /** The sites a sequence holds. */
  function Members(xs: seq<int>): set<int> {
    set x | x in xs
  }

  lemma MembersLast(xs: seq<int>)
    requires xs != []
    ensures Members(xs) == Members(xs[..|xs| - 1]) + {xs[|xs| - 1]}
  {
    assert xs == xs[..|xs| - 1] + [xs[|xs| - 1]];
  }

  lemma IntersectSnoc(before: set<int>, x: int, held: set<int>)
    requires x !in before
    ensures |(before + {x}) * held| == |before * held| + (if x in held then 1 else 0)
  {
    if x in held {
      assert (before + {x}) * held == before * held + {x};
    } else {
      assert (before + {x}) * held == before * held;
    }
  }

  lemma {:induction false} HitsAsSet(sites: seq<int>, profile: Profile)
    requires Distinct(sites)
    ensures Hits(sites, profile) == |Members(sites) * Members(profile)|
  {
    if sites != [] {
      var t, x := sites[..|sites| - 1], sites[|sites| - 1];
      assert Distinct(t);
      HitsAsSet(t, profile);
      MembersLast(sites);
      assert x !in Members(t) by {
        assert forall i :: 0 <= i < |t| ==> t[i] == sites[i];
      }
      assert x in profile <==> x in Members(profile);
      IntersectSnoc(Members(t), x, Members(profile));
    }
  }

  lemma {:induction false} DistinctCardinality(p: seq<int>)
    requires Distinct(p)
    ensures |Members(p)| == |p|
  {
    if p != [] {
      var t, x := p[..|p| - 1], p[|p| - 1];
      assert Distinct(t);
      DistinctCardinality(t);
      MembersLast(p);
      assert x !in Members(t);
    }
  }

  /** A profile of distinct sites, all among the distinct `sites`, holds |profile| of them. */
  lemma HitsWhole(sites: seq<int>, profile: Profile)
    requires Distinct(sites) && Distinct(profile)
    requires forall s :: s in profile ==> s in sites
    ensures Hits(sites, profile) == |profile|
  {
    HitsAsSet(sites, profile);
    DistinctCardinality(profile);
    assert Members(sites) * Members(profile) == Members(profile);
  }

  lemma {:induction false} ContributionTotalNone(sites: seq<int>)
    ensures ContributionTotal(sites, [], []) == 0.0
  {
    if sites != [] {
      ContributionTotalNone(sites[..|sites| - 1]);
    }
  }

  /** One more profile adds its percentage once for every site it holds. */
  lemma {:induction false} ContributionTotalSnoc(sites: seq<int>, profiles: seq<Profile>, percentages: seq<real>)
    requires |profiles| == |percentages| && profiles != []
    ensures var n := |profiles|;
      ContributionTotal(sites, profiles, percentages)
      == ContributionTotal(sites, profiles[..n - 1], percentages[..n - 1]) + percentages[n - 1] * Hits(sites, profiles[n - 1]) as real
  {
    if sites != [] {
      var n := |profiles|;
      var t, x := sites[..|sites| - 1], sites[|sites| - 1];
      ContributionTotalSnoc(t, profiles, percentages);
      var pct, hitsBefore := percentages[n - 1], Hits(t, profiles[n - 1]) as real;
      if x in profiles[n - 1] {
        assert pct * (hitsBefore + 1.0) == pct * hitsBefore + pct;
      }
    }
  }

  /**
   * When every profile holds nPTM of the distinct `sites`, the
   * contributions to `sites` add up to nPTM times the sum of the
   * percentages.
   */
  lemma {:induction false} ContributionTotalExchange(sites: seq<int>, nPTM: nat, profiles: seq<Profile>, percentages: seq<real>)
    requires |profiles| == |percentages| && Distinct(sites)
    requires forall i :: 0 <= i < |profiles| ==> |profiles[i]| == nPTM && Distinct(profiles[i])
    requires forall i, s :: 0 <= i < |profiles| && s in profiles[i] ==> s in sites
    ensures ContributionTotal(sites, profiles, percentages) == nPTM as real * Sum(percentages)
  {
    ContributionTotalPrefix(sites, profiles, percentages, |profiles|);
    assert profiles[..|profiles|] == profiles && percentages[..|percentages|] == percentages;
    WeightedSizesUniform(nPTM, profiles, percentages);
  }

  /** The sum over the profiles of each percentage times the profile's number of sites. */
  function WeightedSizes(profiles: seq<Profile>, percentages: seq<real>): real
    requires |profiles| == |percentages|
  {
    if profiles == [] then 0.0
    else
      WeightedSizes(profiles[..|profiles| - 1], percentages[..|percentages| - 1])
      + percentages[|percentages| - 1] * |profiles[|profiles| - 1]| as real
  }

  lemma {:induction false} WeightedSizesUniform(nPTM: nat, profiles: seq<Profile>, percentages: seq<real>)
    requires |profiles| == |percentages|
    requires forall i :: 0 <= i < |profiles| ==> |profiles[i]| == nPTM
    ensures WeightedSizes(profiles, percentages) == nPTM as real * Sum(percentages)
  {
    if profiles != [] {
      var t, u := profiles[..|profiles| - 1], percentages[..|percentages| - 1];
      assert forall i :: 0 <= i < |t| ==> t[i] == profiles[i];
      WeightedSizesUniform(nPTM, t, u);
      ExchangeStep(WeightedSizes(profiles, percentages), WeightedSizes(t, u), Sum(percentages), Sum(u),
                   percentages[|percentages| - 1], |profiles[|profiles| - 1]| as real, nPTM as real);
    }
  }

  lemma {:induction false} ContributionTotalPrefix(sites: seq<int>, profiles: seq<Profile>, percentages: seq<real>, m: nat)
    requires |profiles| == |percentages| && Distinct(sites) && m <= |profiles|
    requires forall i :: 0 <= i < |profiles| ==> Distinct(profiles[i])
    requires forall i, s :: 0 <= i < |profiles| && s in profiles[i] ==> s in sites
    ensures ContributionTotal(sites, profiles[..m], percentages[..m]) == WeightedSizes(profiles[..m], percentages[..m])
  {
    if m == 0 {
      assert profiles[..0] == [] && percentages[..0] == [];
      ContributionTotalNone(sites);
    } else {
      ContributionTotalPrefix(sites, profiles, percentages, m - 1);
      PrefixStep(sites, profiles, percentages, m);
    }
  }

  /** The profile at m - 1 adds its percentage once for each of its sites. */
  lemma PrefixStep(sites: seq<int>, profiles: seq<Profile>, percentages: seq<real>, m: nat)
    requires |profiles| == |percentages| && Distinct(sites) && 0 < m <= |profiles|
    requires Distinct(profiles[m - 1])
    requires forall s :: s in profiles[m - 1] ==> s in sites
    ensures ContributionTotal(sites, profiles[..m], percentages[..m])
      == ContributionTotal(sites, profiles[..m - 1], percentages[..m - 1]) + percentages[m - 1] * |profiles[m - 1]| as real
    ensures WeightedSizes(profiles[..m], percentages[..m])
      == WeightedSizes(profiles[..m - 1], percentages[..m - 1]) + percentages[m - 1] * |profiles[m - 1]| as real
  {
    var ps, qs := profiles[..m], percentages[..m];
    assert ps[..m - 1] == profiles[..m - 1] && qs[..m - 1] == percentages[..m - 1];
    ContributionTotalSnoc(sites, ps, qs);
    HitsWhole(sites, profiles[m - 1]);
  }

  lemma {:induction false} ScoreTotalOfContributions(sites: seq<int>, scores: map<int, real>, profiles: seq<Profile>,
                                                     percentages: seq<real>)
    requires |profiles| == |percentages|
    requires forall s :: s in sites ==> s in scores && scores[s] == Contribution(profiles, percentages, s)
    ensures ScoreTotal(sites, scores) == ContributionTotal(sites, profiles, percentages)
  {
    if sites != [] {
      ScoreTotalOfContributions(sites[..|sites| - 1], scores, profiles, percentages);
      assert sites[|sites| - 1] in sites;
    }
  }

  /** Site scores of profiles each holding nPTM of the distinct `sites` add up to nPTM times the percentages' sum. */
  lemma SiteScoresTotal(sites: seq<int>, nPTM: nat, profiles: seq<Profile>, percentages: seq<real>)
    requires |profiles| == |percentages| && Distinct(sites)
    requires forall i :: 0 <= i < |profiles| ==> |profiles[i]| == nPTM && Distinct(profiles[i])
    requires forall i, s :: 0 <= i < |profiles| && s in profiles[i] ==> s in sites
    requires forall s :: s in sites ==> exists i :: 0 <= i < |profiles| && s in profiles[i]
    ensures ScoreTotal(sites, SiteScores(profiles, percentages)) == nPTM as real * Sum(percentages)
  {
    SiteScoresAt(profiles, percentages);
    ScoreTotalOfContributions(sites, SiteScores(profiles, percentages), profiles, percentages);
    ContributionTotalExchange(sites, nPTM, profiles, percentages);
  }

  /** The site scores of the profiles over `sites`, from percentages summing to 100, add up to 100 × nPTM. */
  lemma ManySitesTotal(sites: seq<int>, nPTM: nat, percentages: seq<real>)
    requires StrictlyIncreasing(sites) && 1 <= nPTM <= |sites|
    requires |percentages| == |Layers(sites, nPTM)| && Sum(percentages) == 100.0
    ensures ScoreTotal(sites, SiteScores(Layers(sites, nPTM), percentages)) == 100.0 * nPTM as real
  {
    var profiles := Layers(sites, nPTM);
    assert Distinct(sites);
    assert forall i :: 0 <= i < |profiles| ==> |profiles[i]| == nPTM && Distinct(profiles[i]) by {
      LayersAreCombinations(sites, nPTM);
      forall i | 0 <= i < |profiles| ensures |profiles[i]| == nPTM && Distinct(profiles[i]) {
        assert IsProfileOf(profiles[i], sites, nPTM);
      }
    }
    assert && (forall i, s :: 0 <= i < |profiles| && s in profiles[i] ==> s in sites)
           && (forall s :: s in sites ==> exists i :: 0 <= i < |profiles| && s in profiles[i]) by {
      ProfilesCoverSites(sites, nPTM);
    }
    SiteScoresTotal(sites, nPTM, profiles, percentages);
    var k := nPTM as real;
    assert ScoreTotal(sites, SiteScores(profiles, percentages)) == k * Sum(percentages);
    assert k * Sum(percentages) == 100.0 * k;
  }

  /**
   * On success the scores of the candidate sites add up to 100 times the
   * number of modifications: every profile holds nPTM sites and the profile
   * percentages add up to 100. Only for a single modification is the total
   * 100.
   */
  lemma SiteProbabilitiesTotal(peptide: Peptide, representativePtm: string, sites: seq<int>, nPTM: nat,
                               peaks: seq<Peak>, ms2Tolerance: real, d: real, c: Collaborators)
    requires ListsKeys(c.keyOrder) && StrictlyIncreasing(sites) && nPTM >= 1
    ensures var r := SiteProbabilities(peptide, representativePtm, sites, nPTM, peaks, ms2Tolerance, d, c);
      r.Ok? ==> ScoreTotal(sites, r.value) == 100.0 * nPTM as real
  {
    var r := SiteProbabilities(peptide, representativePtm, sites, nPTM, peaks, ms2Tolerance, d, c);
    if r.Ok? {
      assert Distinct(sites);
      if |sites| > nPTM {
        ManySitesProbabilities(peptide, representativePtm, sites, nPTM, peaks, ms2Tolerance, d, c);
        var pcts := ProfilePercentages(peptide, representativePtm, peaks, ms2Tolerance, d, c, Layers(sites, nPTM)).value;
        ManySitesTotal(sites, nPTM, pcts);
      } else {
        var single, whole := [sites], [100.0];
        assert r.value == SiteScores(single, whole);
        assert Sum(whole) == 100.0 by {
          assert whole[..0] == [];
        }
        SiteScoresTotal(sites, nPTM, single, whole);
      }
    }
  }

  /** Each final score is the profile variant's score on the reduced spectrum. */
  lemma {:induction false} FinalScoresAt(profiles: seq<Profile>, representativePtm: string, c: Collaborators,
                                         reduced: PeakMap, p: real, i: nat)
    requires i < |profiles|
    ensures var v := Variant(c, representativePtm, profiles[i]);
      FinalScores(profiles, representativePtm, c, reduced, p)[i] == ScoreP(p, c.expectedCount(v), c.matches(reduced, v), c.tail)
  {
    if i < |profiles| - 1 {
      var t := profiles[..|profiles| - 1];
      FinalScoresAt(t, representativePtm, c, reduced, p, i);
    }
  }

  /**
   * The two final loops: every profile's score on the reduced spectrum,
   * through the distribution cache, range-checked and inverted, summed;
   * then every inverse over the total, range-checked, in percent.
   */
  method Rescore(profiles: seq<Profile>, variants: map<Profile, Peptide>, representativePtm: string, reduced: PeakMap,
                 p: real, c: Collaborators, cache: DistributionCache) returns (r: Result<seq<real>>)
    requires cache.Valid()
    requires forall i :: 0 <= i < |profiles| ==>
      profiles[i] in variants && variants[profiles[i]] == Variant(c, representativePtm, profiles[i])
    modifies cache
    ensures cache.Valid()
    ensures r == Normalised(FinalScores(profiles, representativePtm, c, reduced, p))
  {
    var inverses, pInvTotal := InvertScores(profiles, variants, representativePtm, reduced, p, c, cache);
    if inverses.Err? {
      return Err(inverses.error);
    }
    if pInvTotal <= 0.0 {
      return Err(NonPositiveNormaliser);
    }
    r := ToPercentages(inverses.value, pInvTotal);
  }

  /** The first final loop: the inverse of every profile's score, and their total. */
  method InvertScores(profiles: seq<Profile>, variants: map<Profile, Peptide>, representativePtm: string, reduced: PeakMap,
                      p: real, c: Collaborators, cache: DistributionCache) returns (r: Result<seq<real>>, pInvTotal: real)
    requires cache.Valid()
    requires forall i :: 0 <= i < |profiles| ==>
      profiles[i] in variants && variants[profiles[i]] == Variant(c, representativePtm, profiles[i])
    modifies cache
    ensures cache.Valid()
    ensures r == Inverses(FinalScores(profiles, representativePtm, c, reduced, p))
    ensures r.Ok? ==> pInvTotal == Sum(r.value)
  {
    ghost var bigPs := FinalScores(profiles, representativePtm, c, reduced, p);
    var pInvs: seq<real> := [];
    pInvTotal := 0.0;
    for i := 0 to |profiles|
      invariant cache.Valid()
      invariant Inverses(bigPs[..i]) == Ok(pInvs)
      invariant pInvTotal == Sum(pInvs)
    {
      var tempPeptide := variants[profiles[i]];
      var n := c.expectedCount(tempPeptide);
      var bigP := cache.GetPhosphoRsScoreP(p, n, c.matches(reduced, tempPeptide), c.tail, c.cacheFilled(Binomial(n, p)));
      FinalScoresAt(profiles, representativePtm, c, reduced, p, i);
      assert bigP == bigPs[i];
      InversesStep(bigPs, i, pInvs);
      if !IsProbability(bigP) {
        InversesPrefixFails(bigPs, i + 1);
        return Err(ProbabilityOutOfRange), pInvTotal;
      }
      if bigP == 0.0 {
        InversesPrefixFails(bigPs, i + 1);
        return Err(DivisionByZero), pInvTotal;
      }
      var pInv := 1.0 / bigP;
      SumSnoc(pInvs, pInv);
      pInvs := pInvs + [pInv];
      pInvTotal := pInvTotal + pInv;
    }
    assert bigPs[..|profiles|] == bigPs;
    r := Ok(pInvs);
  }

  /** The second final loop: every inverse over the total, range-checked, in percent. */
  method ToPercentages(pInvs: seq<real>, pInvTotal: real) returns (r: Result<seq<real>>)
    requires pInvTotal != 0.0
    ensures r == Percentages(pInvs, pInvTotal)
  {
    var percentages: seq<real> := [];
    for i := 0 to |pInvs|
      invariant Percentages(pInvs[..i], pInvTotal) == Ok(percentages)
    {
      assert pInvs[..i + 1][..i] == pInvs[..i];
      var phosphoRsProbability := pInvs[i] / pInvTotal;
      if !IsProbability(phosphoRsProbability) {
        PercentagesPrefixFails(pInvs, pInvTotal, i + 1);
        return Err(ProbabilityOutOfRange);
      }
      percentages := percentages + [phosphoRsProbability * 100.0];
    }
    assert pInvs[..|pInvs|] == pInvs;
    return Ok(percentages);
  }

  /**
   * The branch with more candidate sites than modifications: the filtered
   * spectrum, the profile variants, the site-determining ions, the window
   * loop and the final scoring.
   */
  method ScoreProfiles(peptide: Peptide, representativePtm: string, peaks: seq<Peak>, ms2Tolerance: real, d: real,
                       c: Collaborators, profiles: seq<Profile>, cache: DistributionCache) returns (r: Result<seq<real>>)
    requires ListsKeys(c.keyOrder) && cache.Valid()
    modifies cache
    ensures cache.Valid()
    ensures r == ProfilePercentages(peptide, representativePtm, peaks, ms2Tolerance, d, c, profiles)
  {
    var filtered := FilterSpectrum(peaks, ms2Tolerance);
    if filtered.Err? {
      return Err(filtered.error);
    }
    var spectrum := filtered.value;
    var profileToPeptide := PossiblePeptidesMap(c.noModPeptide, representativePtm, profiles);
    var siteDeterminingIonsMap := GetSiteDeterminingIons(c.noModPeptide, profiles, representativePtm, c.expectedIons);
    var range := c.mzRange(spectrum);
    var minMz, maxMz := range.0, range.1;
    var inp := WindowsOf(c, peptide, representativePtm, spectrum, profiles, siteDeterminingIonsMap, d);
    var reducedSpectrum := ReduceSpectrum(minMz, maxMz, inp);
    ghost var spec := ProfilePercentages(peptide, representativePtm, peaks, ms2Tolerance, d, c, profiles);
    if reducedSpectrum.Err? {
      assert spec == Err(reducedSpectrum.error);
      return Err(reducedSpectrum.error);
    }
    var currentP := FinalP(spectrum, reducedSpectrum.value, d, c);
    assert spec == Normalised(FinalScores(profiles, representativePtm, c, reducedSpectrum.value, currentP));
    r := Rescore(profiles, profileToPeptide, representativePtm, reducedSpectrum.value, currentP, c, cache);
  }

  /**
   * getSequenceProbabilities: the input checks, the candidate sites, the
   * profile percentages (all of them 100 for a single profile), their sum
   * per site and the check that every candidate site has a score.
   */
  method GetSequenceProbabilities(peptide: Peptide, ptms: seq<Ptm>, peaks: seq<Peak>, ms2Tolerance: real, d: real,
                                  c: Collaborators, cache: DistributionCache) returns (r: Result<map<int, real>>)
    requires ListsKeys(c.keyOrder) && cache.Valid()
    modifies cache
    ensures cache.Valid()
    ensures r == SequenceProbabilities(peptide, ptms, peaks, ms2Tolerance, d, c)
  {
    if ptms == [] {
      return Err(NoPtmGiven);
    }
    var nPTM := CountPtms(peptide.mods, ptms);
    if nPTM == 0 {
      return Err(PtmNotFound);
    }
    var possibleSites := GetPossibleSites(ptms, |peptide.sequence|, c.potentialSites);
    var profiles: seq<Profile>, percentages: seq<real>;
    if |possibleSites| > nPTM {
      profiles := PossibleModificationProfiles(possibleSites, nPTM);
      var scored := ScoreProfiles(peptide, ptms[0].name, peaks, ms2Tolerance, d, c, profiles, cache);
      if scored.Err? {
        return Err(scored.error);
      }
      percentages := scored.value;
    } else if |possibleSites| == nPTM {
      profiles, percentages := [possibleSites], [100.0];
    } else {
      return Err(TooFewSites);
    }
    var scores := AggregateScores(profiles, percentages);
    var covered := AllSitesScored(possibleSites, scores);
    if !covered {
      return Err(SiteNotScored);
    }
    return Ok(scores);
  }

  /**
   * When the sub-spectrum of a peak map only returns entries of that map,
   * every peak of the reduced spectrum is one of the spectrum's peaks, kept
   * under its own m/z.
   */
  lemma ReducedSpectrumPeaks(peptide: Peptide, representativePtm: string, peaks: seq<Peak>, ms2Tolerance: real,
                             d: real, c: Collaborators, profiles: seq<Profile>)
    requires ListsKeys(c.keyOrder)
    requires forall m: PeakMap, lo: real, hi: real, i :: 0 <= i < |c.subSpectrum(m, lo, hi)| ==>
      var x := c.subSpectrum(m, lo, hi)[i]; x.mz in m && m[x.mz] == x
    ensures var filtered := Filtered(peaks, ms2Tolerance, false);
      filtered.Ok? ==>
        var siteMap := SiteDeterminingIons(c.noModPeptide, representativePtm, profiles, c.expectedIons);
        var range := c.mzRange(filtered.value);
        var reduced := Reduced(range.0, range.1, map[], WindowsOf(c, peptide, representativePtm, filtered.value, profiles, siteMap, d));
        reduced.Ok? ==> forall mz :: mz in reduced.value ==> reduced.value[mz].mz == mz && reduced.value[mz] in peaks
  {
    var filtered := Filtered(peaks, ms2Tolerance, false);
    if filtered.Ok? {
      var siteMap := SiteDeterminingIons(c.noModPeptide, representativePtm, profiles, c.expectedIons);
      var range := c.mzRange(filtered.value);
      var inp := WindowsOf(c, peptide, representativePtm, filtered.value, profiles, siteMap, d);
      FilteredValuesAreInputPeaks(peaks, ms2Tolerance, false);
      forall lo: real, hi: real, i | 0 <= i < |inp.extract(lo, hi)| ensures inp.extract(lo, hi)[i] in peaks {
        assert inp.extract(lo, hi) == c.subSpectrum(filtered.value, lo, hi);
        var x := inp.extract(lo, hi)[i];
        assert x.mz in filtered.value && filtered.value[x.mz] == x;
      }
      ReducedPeaks(range.0, range.1, map[], inp, peaks);
    }
  }
}
