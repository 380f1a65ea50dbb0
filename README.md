# PhosphoRS site localisation, command-line helpers and MS-GF+ parameters in Dafny

This project models three parts of the compomics-utilities library and proves properties of them.

- **PhosphoRS** (`PhosphoRS.java`) scores where a post-translational modification (PTM) sits on a peptide.
  - It lists the candidate sites and enumerates every modification profile (an increasing choice of nPTM sites).
  - It builds one peptide variant per profile and sorts the theoretic fragment-ion m/z values into common and site-determining ions.
  - It pre-filters the spectrum. Then, window by window, it keeps the depth of nested top-intensity sub-spectra that best separates the profiles.
  - It scores every profile on the reduced spectrum with a binomial tail probability (through a bounded distribution cache).
  - It normalises the inverse scores into percentages and adds them up per site. Every profile holds nPTM sites, so the site scores add up to 100 × nPTM, which is 100 only when nPTM = 1.
  - Every error check of `getSequenceProbabilities` is modelled as an error value.
- **CommandLineUtils** (`CommandLineUtils.java`):
  - joins arguments with spaces;
  - quotes paths and joins them with the "," separator;
  - splits and trims an option value;
  - collects the input files whose lower-cased name ends with one of the given extensions.
- **MsgfParameters** (`MsgfParameters.java`) holds the MS-GF+ search settings:
  - their defaults, setters and getters;
  - a field-wise `equals`;
  - a `KEY=value` rendering.

Layout, one module per component:

- `outcomes.dfy` holds the `Result`/`Option` types and the error kinds. Each error kind stands for an exception the source throws.
- `sorting.dfy` holds a stable insertion sort, standing for `Collections.sort`.
- `spectra.dfy` holds peaks and peak maps.
- `profiles.dfy`, `variants.dfy`, `site_ions.dfy`, `reduced_spectra.dfy`, `filter.dfy` and `scoring.dfy` each model one helper of PhosphoRS.
- `depth.dfy` models the window loop.
- `localisation.dfy` models `getSequenceProbabilities`.
- `command_line.dfy` models CommandLineUtils.
- `msgf.dfy` models MsgfParameters.

Where the source changes state step by step, the model does too:

- methods with loops are proved equal to a specification function;
- the distribution cache and the parameter object are classes whose methods state their new state.

The properties are proved about the specification functions.

Collaborators the source calls but that are not part of this model are parameters, mostly function-valued fields of `Localisation.Collaborators`:

- the annotator's expected ions and ion matches;
- the binomial tail probability;
- `Peptide.getPotentialModificationSites` and `Peptide.getNoModPeptide`;
- the sub-spectrum extraction and the m/z range of a spectrum;
- the number of decimals derived from `log10`;
- the iteration order of the site-determining ion map;
- the file system (`CommandLine.FileSystem`);
- the line separator and the advocate's name.

## Model

| member | source | states |
|---|---|---|
| Profiles.PossibleModificationProfiles | src/main/java/com/compomics/util/experiment/identification/ptm/ptmscores/PhosphoRS.java:624-652 | the nested loops return the profile layers of the site list: the singletons, then each profile extended by every later site, nPtms-1 times |
| Profiles.SeedProfiles | src/main/java/com/compomics/util/experiment/identification/ptm/ptmscores/PhosphoRS.java:628-632 | the first loop makes one single-site profile per site, in site order |
| Profiles.ExtendProfiles | src/main/java/com/compomics/util/experiment/identification/ptm/ptmscores/PhosphoRS.java:636-648 | one pass extends every profile, in order, by the sites above its last site |
| Profiles.ExtendProfile | src/main/java/com/compomics/util/experiment/identification/ptm/ptmscores/PhosphoRS.java:639-646 | a profile is extended by each site greater than its last position, in site order |
| Profiles.LayersAreCombinations | src/main/java/com/compomics/util/experiment/identification/ptm/ptmscores/PhosphoRS.java:624-652 | for strictly increasing sites and nPtms >= 1, the profiles are exactly the increasing length-nPtms choices of sites; there are C(m, nPtms) of them, in strictly increasing lexicographic order |
| Profiles.LayersEqualCombinations | src/main/java/com/compomics/util/experiment/identification/ptm/ptmscores/PhosphoRS.java:634-649 | iterating the extension nPtms-1 times yields the combinations of nPtms sites |
| Profiles.CombinationsSound | src/main/java/com/compomics/util/experiment/identification/ptm/ptmscores/PhosphoRS.java:639-646 | every generated combination is an increasing choice of k sites from the list |
| Profiles.CombinationsComplete | src/main/java/com/compomics/util/experiment/identification/ptm/ptmscores/PhosphoRS.java:639-646 | every increasing choice of k sites is generated |
| Profiles.CombinationsCount | src/main/java/com/compomics/util/experiment/identification/ptm/ptmscores/PhosphoRS.java:624-652 | the number of combinations is the binomial coefficient C(m, k) |
| Profiles.CombinationsLexOrdered | src/main/java/com/compomics/util/experiment/identification/ptm/ptmscores/PhosphoRS.java:638-647 | the combinations come in strictly increasing lexicographic order |
| Profiles.LayersDistinct | src/main/java/com/compomics/util/experiment/identification/ptm/ptmscores/PhosphoRS.java:624-652 | no profile is listed twice |
| Profiles.SingletonProfiles | src/main/java/com/compomics/util/experiment/identification/ptm/ptmscores/PhosphoRS.java:628-634 | with nPtms <= 1 the result is the singleton profiles, one per site, in order |
| Profiles.CombinationsCover | src/main/java/com/compomics/util/experiment/identification/ptm/ptmscores/PhosphoRS.java:624-652 | every site belongs to some profile when 1 <= k <= m |
| Variants.PossiblePeptidesMap | src/main/java/com/compomics/util/experiment/identification/ptm/ptmscores/PhosphoRS.java:545-565 | the map has one entry per profile key, holding the unmodified peptide with the profile's modifications added |
| Variants.AddProfileModifications | src/main/java/com/compomics/util/experiment/identification/ptm/ptmscores/PhosphoRS.java:551-560 | the loop adds one variable modification of the representative PTM per profile position |
| Variants.ResidueIndexOnResidue | src/main/java/com/compomics/util/experiment/identification/ptm/ptmscores/PhosphoRS.java:553-558 | site 0 maps to residue 1, site L+1 to residue L, and every other site to itself; the index always lies in 1..L |
| Variants.WithProfileShape | src/main/java/com/compomics/util/experiment/identification/ptm/ptmscores/PhosphoRS.java:550-562 | a variant keeps the sequence and the earlier modifications and appends one variable modification of the PTM per profile site, at the mapped residue |
| SiteIons.GetSiteDeterminingIons | src/main/java/com/compomics/util/experiment/identification/ptm/ptmscores/PhosphoRS.java:669-733 | the loops compute the site-determining map of the profile scan over the accumulating peptide |
| SiteIons.CollectMzs | src/main/java/com/compomics/util/experiment/identification/ptm/ptmscores/PhosphoRS.java:693-704 | the m/z set holds the fragment-ion m/z values at every charge, each once |
| SiteIons.FirstLoop | src/main/java/com/compomics/util/experiment/identification/ptm/ptmscores/PhosphoRS.java:707-720 | the first loop: an m/z is common only while the common map is empty; otherwise an m/z not common is listed as site-determining for the profile |
| SiteIons.SecondLoop | src/main/java/com/compomics/util/experiment/identification/ptm/ptmscores/PhosphoRS.java:722-729 | the second loop moves common m/z values the profile lacks into the site-determining map, and adds the profile to the others |
| SiteIons.DedupeFacts | src/main/java/com/compomics/util/experiment/identification/ptm/ptmscores/PhosphoRS.java:693-701 | the m/z set holds exactly the values produced, without repetition |
| SiteIons.FirstProfilePartition | src/main/java/com/compomics/util/experiment/identification/ptm/ptmscores/PhosphoRS.java:707-729 | after the first profile only its first m/z is common (listed with the profile twice), and all its other m/z values are site-determining for it |
| SiteIons.SharedFirstIonStaysCommon | src/main/java/com/compomics/util/experiment/identification/ptm/ptmscores/PhosphoRS.java:707-729 | the first profile's first m/z (the only one it makes common), when every later profile also produces it, stays common and is never site-determining |
| SiteIons.SiteDeterminingIonsSound | src/main/java/com/compomics/util/experiment/identification/ptm/ptmscores/PhosphoRS.java:669-733 | every site-determining m/z is a theoretic ion of some visited variant, and every profile listed under an m/z is a visited profile whose own ions (on the peptide accumulated up to it) contain that m/z: keys are appended only for the profile's own m/z values and lists move unchanged from the common map |
| ReducedSpectra.GetReducedSpectra | src/main/java/com/compomics/util/experiment/identification/ptm/ptmscores/PhosphoRS.java:744-787 | an empty spectrum is an error; otherwise the result is the nested sub-spectra of the peaks ordered by decreasing intensity |
| ReducedSpectra.GroupByIntensity | src/main/java/com/compomics/util/experiment/identification/ptm/ptmscores/PhosphoRS.java:751-763 | each intensity maps to its peaks in spectrum order, and the keys are the distinct intensities |
| ReducedSpectra.CollectDepths | src/main/java/com/compomics/util/experiment/identification/ptm/ptmscores/PhosphoRS.java:765-784 | the depth loop emits the sub-spectra of the grouped peaks, stopping after MAX_DEPTH+1 of them |
| ReducedSpectra.AddGroup | src/main/java/com/compomics/util/experiment/identification/ptm/ptmscores/PhosphoRS.java:770-780 | adding one intensity group emits one growing snapshot per peak, and stops once depth exceeds MAX_DEPTH |
| ReducedSpectra.ReducedSpectraNested | src/main/java/com/compomics/util/experiment/identification/ptm/ptmscores/PhosphoRS.java:765-784 | there are min(peak count, MAX_DEPTH+1) sub-spectra; the first holds the most intense peak, and each next one adds the next peak to the previous one |
| ReducedSpectra.ReducedSpectraSizes | src/main/java/com/compomics/util/experiment/identification/ptm/ptmscores/PhosphoRS.java:769-773 | with distinct m/z values, the i-th sub-spectrum holds i+1 peaks |
| ReducedSpectra.OrderNonIncreasing | src/main/java/com/compomics/util/experiment/identification/ptm/ptmscores/PhosphoRS.java:763-771 | peaks are added in non-increasing intensity order |
| ReducedSpectra.OrderIsPermutation | src/main/java/com/compomics/util/experiment/identification/ptm/ptmscores/PhosphoRS.java:751-771 | the ordered peaks are a permutation of the spectrum's peaks |
| SpectrumFilter.FilterSpectrum | src/main/java/com/compomics/util/experiment/identification/ptm/ptmscores/PhosphoRS.java:801-858 | the method computes the filtered peak map (corrected to put peaks under their m/z; see Findings) |
| SpectrumFilter.ScanPeaks | src/main/java/com/compomics/util/experiment/identification/ptm/ptmscores/PhosphoRS.java:823-846 | the loop over the ordered m/z values computes the window scan |
| SpectrumFilter.ScanPeak | src/main/java/com/compomics/util/experiment/identification/ptm/ptmscores/PhosphoRS.java:826-845 | one peak: the first sets refMz; passing refMz+window flushes the buffer and advances refMz by one window; the peak goes into the buffer under its intensity |
| SpectrumFilter.PutMostIntense | src/main/java/com/compomics/util/experiment/identification/ptm/ptmscores/PhosphoRS.java:848-855 | the final window contributes its maxPeaks most intense buffered peaks, each under its m/z |
| SpectrumFilter.FilterRejectsIff | src/main/java/com/compomics/util/experiment/identification/ptm/ptmscores/PhosphoRS.java:806-818 | filtering fails, with "all peaks removed", exactly when maxPeaks < 1, that is when the tolerance exceeds WINDOW_SIZE |
| SpectrumFilter.FilteredValuesAreInputPeaks | src/main/java/com/compomics/util/experiment/identification/ptm/ptmscores/PhosphoRS.java:820-857 | every peak the filter returns is an input peak, in the code as written as well as in the corrected one |
| SpectrumFilter.FilteredKeysAreMz | src/main/java/com/compomics/util/experiment/identification/ptm/ptmscores/PhosphoRS.java:820-857 | in the corrected filter every peak is stored under its own m/z |
| SpectrumFilter.MostIntenseFacts | src/main/java/com/compomics/util/experiment/identification/ptm/ptmscores/PhosphoRS.java:833-839 | a flushed window gives min(buffer size, maxPeaks) buffered peaks in strictly decreasing intensity, and no buffered peak left out is more intense than one kept |
| SpectrumFilter.BufferPut | src/main/java/com/compomics/util/experiment/identification/ptm/ptmscores/PhosphoRS.java:845 | the buffer is keyed by intensity, so a peak replaces an earlier one of equal intensity |
| SpectrumFilter.AsWrittenLosesPeak | src/main/java/com/compomics/util/experiment/identification/ptm/ptmscores/PhosphoRS.java:830 | as written, a peak put under its intensity is overwritten by a later peak whose m/z equals that intensity |
| SpectrumFilter.CorrectedKeepsPeak | src/main/java/com/compomics/util/experiment/identification/ptm/ptmscores/PhosphoRS.java:829-831 | putting each flushed peak under its m/z keeps both peaks of the same input |
| Scoring.GetpBounds | src/main/java/com/compomics/util/experiment/identification/ptm/ptmscores/PhosphoRS.java:512-526 | p is 1 when w = 0 or there is at most one peak; otherwise it is min(d·N/w, 1) floored to nDecimals decimals, so it is at most 1, and it is in [0,1] when w > 0 and d >= 0 |
| Scoring.FloorDecimalBounds | src/main/java/com/compomics/util/experiment/identification/ptm/ptmscores/PhosphoRS.java:524 | flooring to n decimals loses less than 10^-n and keeps non-negative values non-negative |
| Scoring.ScorePUnmatched | src/main/java/com/compomics/util/experiment/identification/ptm/ptmscores/PhosphoRS.java:459-467 | with no peptide-fragment-ion match the score is exactly 1, whatever p and n are |
| Scoring.ScorePMatched | src/main/java/com/compomics/util/experiment/identification/ptm/ptmscores/PhosphoRS.java:459-469 | otherwise the score is the descending cumulative probability at k, the number of peptide-fragment-ion matches |
| Scoring.ScorePIsProbability | src/main/java/com/compomics/util/experiment/identification/ptm/ptmscores/PhosphoRS.java:459-473 | the score lies in [0, 1] whenever the tail function returns values in [0, 1] |
| Scoring.FragmentMatchesBounds | src/main/java/com/compomics/util/experiment/identification/ptm/ptmscores/PhosphoRS.java:459-464 | k is at most the number of matches, and it is 0 exactly when no match is a peptide fragment ion |
| Scoring.DistributionCache.AddDistributionToCache | src/main/java/com/compomics/util/experiment/identification/ptm/ptmscores/PhosphoRS.java:482-498 | afterwards there are at most the cache-size p keys and (p, n) is present; other entries are unchanged; below capacity nothing is evicted, and at capacity eviction stops one key under it |
| Scoring.DistributionCache.EvictBelowCapacity | src/main/java/com/compomics/util/experiment/identification/ptm/ptmscores/PhosphoRS.java:483-491 | keys are removed only until the size drops below capacity; the entries kept are unchanged |
| Scoring.DistributionCache.GetPhosphoRsScoreP | src/main/java/com/compomics/util/experiment/identification/ptm/ptmscores/PhosphoRS.java:444-474 | returns the pure score; the cache changes only when a match was found, the distribution was not cached and it reports a filled cache, in which case (p, n) becomes Binomial(n, p), every other p-key keeps its distributions or is evicted, the other entries under p are kept, nothing is evicted below capacity, and a full cache keeps at least capacity − 1 p-keys |
| DepthSelection.WindowIonSets | src/main/java/com/compomics/util/experiment/identification/ptm/ptmscores/PhosphoRS.java:239-252 | the window's map from profile to the site-determining m/z values in (minMz, tempMax] |
| DepthSelection.WindowIonsFacts | src/main/java/com/compomics/util/experiment/identification/ptm/ptmscores/PhosphoRS.java:239-252 | a profile lists an m/z exactly when the m/z lies in the window and is site-determining for that profile; every listed set is non-empty |
| DepthSelection.AddIonToProfiles | src/main/java/com/compomics/util/experiment/identification/ptm/ptmscores/PhosphoRS.java:242-250 | the m/z is added to the set of every listed profile, creating missing sets |
| DepthSelection.AlreadyScored | src/main/java/com/compomics/util/experiment/identification/ptm/ptmscores/PhosphoRS.java:278-284 | true exactly when an equal ion set was already scored |
| DepthSelection.DepthScores | src/main/java/com/compomics/util/experiment/identification/ptm/ptmscores/PhosphoRS.java:259-295 | the profile loop scores one representative per distinct ion set (and one profile without ions); an out-of-range score is an error |
| DepthSelection.RepresentativesFacts | src/main/java/com/compomics/util/experiment/identification/ptm/ptmscores/PhosphoRS.java:263-294 | the scored profiles are given keys with pairwise different ion sets, and every profile's ion set is represented |
| DepthSelection.OutOfRangeFails | src/main/java/com/compomics/util/experiment/identification/ptm/ptmscores/PhosphoRS.java:273-291 | a representative scored outside [0,1] fails the whole window |
| DepthSelection.DepthDeltas | src/main/java/com/compomics/util/experiment/identification/ptm/ptmscores/PhosphoRS.java:296-302 | the deltas are the quotients of consecutive ascending-sorted scores |
| DepthSelection.DeltasOfScores | src/main/java/com/compomics/util/experiment/identification/ptm/ptmscores/PhosphoRS.java:296-302 | for probabilities each delta is a ratio in [0,1], or NaN for 0/0 |
| DepthSelection.DeltasOfSortedScores | src/main/java/com/compomics/util/experiment/identification/ptm/ptmscores/PhosphoRS.java:297-301 | a delta is NaN exactly when the larger score is 0 |
| DepthSelection.ChooseDepth | src/main/java/com/compomics/util/experiment/identification/ptm/ptmscores/PhosphoRS.java:309-327 | the scan and clamping compute the chosen depth |
| DepthSelection.ChosenDepthBounds | src/main/java/com/compomics/util/experiment/identification/ptm/ptmscores/PhosphoRS.java:309-327 | the chosen index is below the number of sub-spectra and at most MAX_DEPTH-1; it is at least MIN_DEPTH-1 when more than MIN_DEPTH-1 sub-spectra exist |
| DepthSelection.DepthScanChoice | src/main/java/com/compomics/util/experiment/identification/ptm/ptmscores/PhosphoRS.java:312-320 | the scan stops at the first rank holding a positive delta, and keeps the first depth with the largest delta of that rank; with no positive delta it keeps depth 0 |
| DepthSelection.PlainDepth | src/main/java/com/compomics/util/experiment/identification/ptm/ptmscores/PhosphoRS.java:333-354 | the loop over the sub-spectra without site-determining ions computes the plain choice as written, whose scan starts from bestP = 0 (see Findings) |
| DepthSelection.PlainChoiceKeepsFirst | src/main/java/com/compomics/util/experiment/identification/ptm/ptmscores/PhosphoRS.java:333-352 | as written, bestP starts at 0, so a probability never beats it: the choice is depth 0, or an error if some score is out of range |
| DepthSelection.AsWrittenIgnoresLowerScore | src/main/java/com/compomics/util/experiment/identification/ptm/ptmscores/PhosphoRS.java:333-350 | on scores 0.5 then 0.1 the as-written scan keeps depth 0 and the corrected scan keeps depth 1 |
| DepthSelection.LowestScanFacts | src/main/java/com/compomics/util/experiment/identification/ptm/ptmscores/PhosphoRS.java:343-350 | the scan ends on the first lowest score below its starting bestP, or stays at index 0 when none is below it |
| DepthSelection.PlainChoiceLowest | src/main/java/com/compomics/util/experiment/identification/ptm/ptmscores/PhosphoRS.java:333-352 | the corrected choice fails exactly when a score is out of range; otherwise it keeps a depth with the lowest score, and every earlier depth scores strictly higher |
| DepthSelection.SiteDepth | src/main/java/com/compomics/util/experiment/identification/ptm/ptmscores/PhosphoRS.java:254-327 | the window with site-determining ions: delta rows for every depth, then the chosen depth |
| DepthSelection.KeptSpectrum | src/main/java/com/compomics/util/experiment/identification/ptm/ptmscores/PhosphoRS.java:232-355 | one non-empty window yields the peaks of its chosen depth: the site-determining choice when the window holds site-determining ions, otherwise the plain choice as written |
| DepthSelection.ReduceSpectrum | src/main/java/com/compomics/util/experiment/identification/ptm/ptmscores/PhosphoRS.java:208-359 | the while loop over 100-Da windows from the minimum to the maximum m/z computes the reduced spectrum, each window keeping its chosen depth with the plain choice as written |
| DepthSelection.PlainWindowKeepsTopPeak | src/main/java/com/compomics/util/experiment/identification/ptm/ptmscores/PhosphoRS.java:329-355 | a window without site-determining ions fails exactly when a plain score is out of range, and otherwise keeps the depth-0 sub-spectrum: its first peak in intensity order, alone |
| DepthSelection.WindowChoicePeaks | src/main/java/com/compomics/util/experiment/identification/ptm/ptmscores/PhosphoRS.java:329-354 | the peaks a window keeps are its own peaks, each under its m/z |
| DepthSelection.ReducedPeaks | src/main/java/com/compomics/util/experiment/identification/ptm/ptmscores/PhosphoRS.java:218-359 | every peak of the reduced spectrum comes from an extracted window and sits under its own m/z |
| DepthSelection.ReducedErrors | src/main/java/com/compomics/util/experiment/identification/ptm/ptmscores/PhosphoRS.java:218-359 | the window loop fails only on a score out of range |
| DepthSelection.WindowCountStep | src/main/java/com/compomics/util/experiment/identification/ptm/ptmscores/PhosphoRS.java:218-358 | each window advances minMz by WINDOW_SIZE, so the loop ends |
| Localisation.CountPtms | src/main/java/com/compomics/util/experiment/identification/ptm/ptmscores/PhosphoRS.java:123-134 | nPTM counts the (variable modification, PTM) pairs with the same name |
| Localisation.PtmCountZero | src/main/java/com/compomics/util/experiment/identification/ptm/ptmscores/PhosphoRS.java:123-137 | nPTM is 0 exactly when no variable modification is named after a given PTM |
| Localisation.GetPossibleSites | src/main/java/com/compomics/util/experiment/identification/ptm/ptmscores/PhosphoRS.java:162-183 | the loops compute the strictly increasing candidate sites, corrected to list each terminal site once (see Findings) |
| Localisation.PossibleSitesFacts | src/main/java/com/compomics/util/experiment/identification/ptm/ptmscores/PhosphoRS.java:162-183 | the sites are strictly increasing; 0 is a candidate through an N-terminal PTM allowed at 1, L+1 through a C-terminal one allowed at L, and other PTMs contribute their potential sites |
| Localisation.CandidateSitesFacts | src/main/java/com/compomics/util/experiment/identification/ptm/ptmscores/PhosphoRS.java:166-182 | the candidate list holds exactly the candidates; without repetition in the corrected form |
| Localisation.TerminalSiteListedTwice | src/main/java/com/compomics/util/experiment/identification/ptm/ptmscores/PhosphoRS.java:167-170 | as written, two N-terminal PTMs list site 0 twice; the corrected list holds it once |
| Localisation.InversesFacts | src/main/java/com/compomics/util/experiment/identification/ptm/ptmscores/PhosphoRS.java:375-384 | the inverse scores exist exactly when every score is in (0,1], and each is 1/P >= 1; otherwise the error is an out-of-range score or a division by zero |
| Localisation.InvertScores | src/main/java/com/compomics/util/experiment/identification/ptm/ptmscores/PhosphoRS.java:372-384 | the loop computes the inverses of the final scores and their total pInvTotal, keeping the cache valid |
| Localisation.ToPercentages | src/main/java/com/compomics/util/experiment/identification/ptm/ptmscores/PhosphoRS.java:389-394 | the loop computes the checked percentages pInv/pInvTotal·100 |
| Localisation.Rescore | src/main/java/com/compomics/util/experiment/identification/ptm/ptmscores/PhosphoRS.java:361-394 | rescoring every profile on the reduced spectrum gives the normalised percentages; a total <= 0 is an error |
| Localisation.NormalisedOkIff | src/main/java/com/compomics/util/experiment/identification/ptm/ptmscores/PhosphoRS.java:372-394 | normalisation succeeds exactly when there is a profile and every score is in (0,1]; then the total is positive and each percentage is the inverse over the total |
| Localisation.NormalisedFacts | src/main/java/com/compomics/util/experiment/identification/ptm/ptmscores/PhosphoRS.java:372-394 | the percentages lie in [0,100], sum to 100, and are inversely proportional to the scores |
| Localisation.NormalisedFailures | src/main/java/com/compomics/util/experiment/identification/ptm/ptmscores/PhosphoRS.java:380-387 | no profiles gives a non-positive total; a score out of range or equal to 0 fails |
| Localisation.NormalisedErrors | src/main/java/com/compomics/util/experiment/identification/ptm/ptmscores/PhosphoRS.java:372-394 | normalisation fails only on an out-of-range score, a division by zero or a non-positive total |
| Localisation.AggregateScores | src/main/java/com/compomics/util/experiment/identification/ptm/ptmscores/PhosphoRS.java:404-417 | the loops compute the per-site scores |
| Localisation.SiteScoresAt | src/main/java/com/compomics/util/experiment/identification/ptm/ptmscores/PhosphoRS.java:404-417 | a site is scored exactly when some profile contains it, and its score is the sum of the percentages of the profiles containing it |
| Localisation.ContributionTotalExchange | src/main/java/com/compomics/util/experiment/identification/ptm/ptmscores/PhosphoRS.java:403-417 | summed over distinct sites, the contributions of profiles that each hold nPTM of those sites equal nPTM times the sum of the percentages |
| Localisation.SiteScoresTotal | src/main/java/com/compomics/util/experiment/identification/ptm/ptmscores/PhosphoRS.java:403-417 | the aggregated site scores of such profiles add up to nPTM times the sum of the percentages |
| Localisation.ManySitesTotal | src/main/java/com/compomics/util/experiment/identification/ptm/ptmscores/PhosphoRS.java:386-417 | over the nPTM-site profiles with percentages summing to 100, the site scores add up to 100 × nPTM |
| Localisation.SiteProbabilitiesTotal | src/main/java/com/compomics/util/experiment/identification/ptm/ptmscores/PhosphoRS.java:386-422 | on success the scores of the candidate sites add up to 100 × nPTM, for both the many-site branch and the single-profile branch |
| Localisation.AddToSitesFacts | src/main/java/com/compomics/util/experiment/identification/ptm/ptmscores/PhosphoRS.java:408-416 | one profile adds its percentage to each of its sites, starting missing sites from 0 |
| Localisation.ContributionBounds | src/main/java/com/compomics/util/experiment/identification/ptm/ptmscores/PhosphoRS.java:404-417 | a site's score lies between 0 and the sum of all percentages |
| Localisation.SingleProfileScores | src/main/java/com/compomics/util/experiment/identification/ptm/ptmscores/PhosphoRS.java:396-417 | a single profile scoring 100 gives each of its sites 100 |
| Localisation.AllSitesScored | src/main/java/com/compomics/util/experiment/identification/ptm/ptmscores/PhosphoRS.java:419-423 | true exactly when every possible site has a score |
| Localisation.ProfilesCoverSites | src/main/java/com/compomics/util/experiment/identification/ptm/ptmscores/PhosphoRS.java:419-423 | every possible site is in some profile, so the "site not scored" check never fires |
| Localisation.ManySitesScores | src/main/java/com/compomics/util/experiment/identification/ptm/ptmscores/PhosphoRS.java:396-423 | with percentages summing to 100, exactly the possible sites are scored, each with a score in [0,100] |
| Localisation.ProfilePercentages | src/main/java/com/compomics/util/experiment/identification/ptm/ptmscores/PhosphoRS.java:188-394 | the profile percentages, when computed, are one per profile, each in [0,100], summing to 100 |
| Localisation.ProfilePercentagesErrors | src/main/java/com/compomics/util/experiment/identification/ptm/ptmscores/PhosphoRS.java:188-394 | scoring the profiles fails only by filtering every peak, a score out of range, a division by zero or a non-positive total |
| Localisation.ScoreProfiles | src/main/java/com/compomics/util/experiment/identification/ptm/ptmscores/PhosphoRS.java:188-394 | filtering, variants, ion partition, window loop and rescoring compute the profile percentages, keeping the cache valid |
| Localisation.FinalScoresAt | src/main/java/com/compomics/util/experiment/identification/ptm/ptmscores/PhosphoRS.java:371-379 | each profile's final score is the binomial score of its variant on the reduced spectrum |
| Localisation.ReducedSpectrumPeaks | src/main/java/com/compomics/util/experiment/identification/ptm/ptmscores/PhosphoRS.java:190-361 | every peak of the reduced spectrum is an input peak, under its own m/z |
| Localisation.WindowsOf | src/main/java/com/compomics/util/experiment/identification/ptm/ptmscores/PhosphoRS.java:205-216 | the window loop's inputs are well formed: every listed ion has an entry in the site-determining map |
| Localisation.GetSequenceProbabilities | src/main/java/com/compomics/util/experiment/identification/ptm/ptmscores/PhosphoRS.java:110-426 | the method computes the site probabilities, keeping the cache valid |
| Localisation.SequenceProbabilitiesChecks | src/main/java/com/compomics/util/experiment/identification/ptm/ptmscores/PhosphoRS.java:115-402 | an empty PTM list fails exactly with "no PTM given", nPTM = 0 exactly with "PTM not found", fewer sites than nPTM exactly with "too few sites"; as many sites as nPTM scores each site 100 |
| Localisation.SiteProbabilitiesChecks | src/main/java/com/compomics/util/experiment/identification/ptm/ptmscores/PhosphoRS.java:188-402 | for given sites and nPTM: too few sites fails exactly with "too few sites", and exactly nPTM sites each score 100 |
| Localisation.SequenceProbabilitiesScores | src/main/java/com/compomics/util/experiment/identification/ptm/ptmscores/PhosphoRS.java:110-426 | the result never fails with "site not scored"; when it succeeds its keys are exactly the possible sites and every score is in [0,100] |
| Localisation.SiteProbabilitiesScores | src/main/java/com/compomics/util/experiment/identification/ptm/ptmscores/PhosphoRS.java:188-423 | with more sites than nPTM each site's score is the sum of the percentages of the profiles containing it |
| CommandLine.ConcatenateList | src/main/java/com/compomics/software/CommandLineUtils.java:45-57 | null gives null; otherwise the arguments after the leading empty ones, a null argument written "null", joined by single spaces |
| CommandLine.ConcatenateArray | src/main/java/com/compomics/software/CommandLineUtils.java:66-78 | the same for an array |
| CommandLine.NullArgumentKept | src/main/java/com/compomics/software/CommandLineUtils.java:54 | a null argument is appended as "null", so it is never dropped as empty |
| CommandLine.NonEmptyNotDropped | src/main/java/com/compomics/software/CommandLineUtils.java:51-54 | only empty arguments are skipped before the first separator; every non-empty argument reaches the result |
| CommandLine.ConcatenatedIsJoin | src/main/java/com/compomics/software/CommandLineUtils.java:49-56 | the loop's result is the join by " " of the arguments after the leading empty ones, so leading empty arguments add no separator |
| CommandLine.ConcatenatedNonEmpty | src/main/java/com/compomics/software/CommandLineUtils.java:49-56 | with all arguments non-empty the result is the arguments joined by " " |
| CommandLine.ConcatenatedStart | src/main/java/com/compomics/software/CommandLineUtils.java:49-56 | a non-empty result starts with the first non-empty argument, so never with a space |
| CommandLine.DropLeadingEmpty | src/main/java/com/compomics/software/CommandLineUtils.java:51-53 | the arguments from the first non-empty one on are a suffix starting with a non-empty argument |
| CommandLine.QuoteArgument | src/main/java/com/compomics/software/CommandLineUtils.java:86-88 | the path wrapped in double quotes |
| CommandLine.GetCommandLineArgument | src/main/java/com/compomics/software/CommandLineUtils.java:27-36 | the quoted paths joined by "," |
| CommandLine.CommandLineArgumentSeparators | src/main/java/com/compomics/software/CommandLineUtils.java:27-36 | an empty list gives ""; n comma-free paths give exactly n-1 separators |
| CommandLine.SplitInput | src/main/java/com/compomics/software/CommandLineUtils.java:96-102 | the pieces of a Java split on "," (trailing empty pieces dropped), each trimmed, in input order |
| CommandLine.TrimFacts | src/main/java/com/compomics/software/CommandLineUtils.java:99 | a trimmed piece has no leading or trailing character <= ' ', is a slice of the piece, and trimming changes exactly the untrimmed pieces |
| CommandLine.DropTrailingEmpty | src/main/java/com/compomics/software/CommandLineUtils.java:98 | split keeps a prefix of the pieces that does not end with an empty piece |
| CommandLine.JoinOfPieces | src/main/java/com/compomics/software/CommandLineUtils.java:98 | joining the comma-free pieces by "," gives back the input |
| CommandLine.JavaSplitOfJoin | src/main/java/com/compomics/software/CommandLineUtils.java:98 | splitting comma-free parts joined by "," gives back the parts when the last is not empty |
| CommandLine.SplitArgumentRoundTrip | src/main/java/com/compomics/software/CommandLineUtils.java:96-102 | splitting the command-line argument of comma-free paths gives back the quoted paths |
| CommandLine.FirstMatchingExtension | src/main/java/com/compomics/software/CommandLineUtils.java:146-157 | the first extension that the lower-cased name ends with, or none exactly when the name is not accepted |
| CommandLine.AcceptedIgnoresCase | src/main/java/com/compomics/software/CommandLineUtils.java:148 | two names with the same lower case are accepted alike, and a name is accepted exactly when its lower case is |
| CommandLine.CollectFiles | src/main/java/com/compomics/software/CommandLineUtils.java:146-158 | the loop over the listed paths collects the accepted ones |
| CommandLine.CollectedFacts | src/main/java/com/compomics/software/CommandLineUtils.java:120-158 | collection succeeds exactly when every accepted path exists, and then gives the accepted paths in order; a failure names a missing accepted path |
| CommandLine.GetFiles | src/main/java/com/compomics/software/CommandLineUtils.java:113-161 | the files of the trimmed split option value |
| CommandLine.FilesOfList | src/main/java/com/compomics/software/CommandLineUtils.java:145-159 | for several paths the result is the accepted paths, and it fails exactly when one of them is missing |
| Msgf.MsgfParameters.constructor | src/main/java/com/compomics/util/experiment/identification/identification_parameters/tool_specific/MsgfParameters.java:21-79 | a fresh object holds the defaults: false, 3, 3, 0, 8, 30, 10, false, -1, 2, 2, 2 |
| Msgf.MsgfParameters.GetAlgorithm | src/main/java/com/compomics/util/experiment/identification/identification_parameters/tool_specific/MsgfParameters.java:82-84 | always MS-GF+ |
| Msgf.MsgfParameters.Equals | src/main/java/com/compomics/util/experiment/identification/identification_parameters/tool_specific/MsgfParameters.java:87-125 | an argument that is not an MsgfParameters is unequal; with non-null Integer fields the result is the equality of the ten compared fields; it throws only on a null Integer field of the receiver |
| Msgf.SameSettingsMeaning | src/main/java/com/compomics/util/experiment/identification/identification_parameters/tool_specific/MsgfParameters.java:90-121 | equals compares exactly the ten fields and ignores the deprecated isotope ranges |
| Msgf.SameSettingsReflexive | src/main/java/com/compomics/util/experiment/identification/identification_parameters/tool_specific/MsgfParameters.java:90-121 | reflexive on settings with non-null Integer fields |
| Msgf.SameSettingsSymmetric | src/main/java/com/compomics/util/experiment/identification/identification_parameters/tool_specific/MsgfParameters.java:90-121 | symmetric on settings with non-null Integer fields |
| Msgf.SameSettingsTransitive | src/main/java/com/compomics/util/experiment/identification/identification_parameters/tool_specific/MsgfParameters.java:90-121 | transitive |
| Msgf.SameSettingsSameText | src/main/java/com/compomics/util/experiment/identification/identification_parameters/tool_specific/MsgfParameters.java:87-177 | equal settings render to the same text |
| Msgf.MsgfParameters.ToString | src/main/java/com/compomics/util/experiment/identification/identification_parameters/tool_specific/MsgfParameters.java:128-177 | a three-line header and a blank line, then ten KEY=value lines in fixed order, with "<br>" as the separator when html |
| Msgf.ParseIntToString | src/main/java/com/compomics/util/experiment/identification/identification_parameters/tool_specific/MsgfParameters.java:148-155 | a rendered int value is an optional "-" and digits, and reads back as the value |
| Msgf.MsgfParameters.SetSearchDecoyDatabase | src/main/java/com/compomics/util/experiment/identification/identification_parameters/tool_specific/MsgfParameters.java:184-195 | changes only searchDecoyDatabase, which the getter then returns |
| Msgf.MsgfParameters.SetMaxPeptideLength | src/main/java/com/compomics/util/experiment/identification/identification_parameters/tool_specific/MsgfParameters.java:202-213 | changes only maxPeptideLength, which the getter then returns |
| Msgf.MsgfParameters.SetMinPeptideLength | src/main/java/com/compomics/util/experiment/identification/identification_parameters/tool_specific/MsgfParameters.java:220-231 | changes only minPeptideLength, which the getter then returns |
| Msgf.MsgfParameters.SetInstrumentID | src/main/java/com/compomics/util/experiment/identification/identification_parameters/tool_specific/MsgfParameters.java:238-249 | changes only instrumentID, which the getter then returns |
| Msgf.MsgfParameters.SetFragmentationType | src/main/java/com/compomics/util/experiment/identification/identification_parameters/tool_specific/MsgfParameters.java:256-267 | changes only fragmentationType, which the getter then returns |
| Msgf.MsgfParameters.SetProtocol | src/main/java/com/compomics/util/experiment/identification/identification_parameters/tool_specific/MsgfParameters.java:274-285 | changes only protocol, which the getter then returns |
| Msgf.MsgfParameters.SetNumberOfSpectrumMarches | src/main/java/com/compomics/util/experiment/identification/identification_parameters/tool_specific/MsgfParameters.java:292-303 | changes only numberOfSpectrumMarches, which the getter then returns |
| Msgf.MsgfParameters.SetAdditionalOutput | src/main/java/com/compomics/util/experiment/identification/identification_parameters/tool_specific/MsgfParameters.java:310-321 | changes only additionalOutput, which the getter then returns |
| Msgf.MsgfParameters.SetNumberTolerableTermini | src/main/java/com/compomics/util/experiment/identification/identification_parameters/tool_specific/MsgfParameters.java:328-339 | changes only numberTolerableTermini, which the getter then returns |
| Msgf.MsgfParameters.SetNumberOfPtmsPerPeptide | src/main/java/com/compomics/util/experiment/identification/identification_parameters/tool_specific/MsgfParameters.java:346-357 | changes only numberOfPtmsPerPeptide, which the getter then returns |

## Left out

- Java doubles are exact reals. Rounding, `Infinity` and `NaN` are not modelled. Dividing a delta by a zero score gives a `NaN` ratio value. A division of 1 by a zero score in the normalisation is the error `DivisionByZero` rather than `Infinity`.
- `Util.floorDouble` is an exact floor to n decimals. `FastMath.log10`, which gives the number of decimals, is the collaborator `decimals`.
- The binomial distribution, its descending cumulative probability and `isCacheEmpty` are parameters: the function `tail` and the flag `distributionCacheFilled`.
- Fragment-ion prediction, spectrum annotation, the number of expected ions, `Peptide.getPotentialModificationSites`, `Peptide.getNoModPeptide`, `getSubSpectrum`, and the minimum and maximum m/z are collaborators given as functions. The fragment-ion maps (`getPossiblePeptideFragments`, `getPossiblePeptideToN`) therefore do not appear.
- The neutral-loss and ion-type settings (PhosphoRS.java:139-161) and the default annotator (119-121) only configure those collaborators, so they are left out.
- A fragment tolerance in ppm (PhosphoRS.java:222-228, 364-367) is left out: the tolerance d is an absolute value given by the caller.
- Profile keys are the profiles themselves rather than `KeyUtils.getKey` strings, assumed injective.
- The iteration order of a `HashMap` or `HashSet` is an input where it matters:
  - the site-determining m/z list is the collaborator `keyOrder`;
  - a profile's m/z set is in first-occurrence order;
  - the profile order in the aggregation is the profile list;
  - cache eviction removes any key.
- Localisation.ProfilePercentages: the window loop scores with the pure score, so the distribution-cache insertions made while choosing depths are not modelled. Those insertions do not change any returned value. The final rescoring goes through the cache.
- Localisation.ProfilePercentages: filters the spectrum with the corrected filter (`Filtered` with `asWritten` false), which puts each buffered peak under its own m/z. On the first Findings input the source loses the peak (m/z 1, intensity 50) before the window loop and the model keeps it, so the reduced spectrum and the percentages can differ.
- Localisation.ScoreProfiles: computes `ProfilePercentages`, so it uses the same corrected filter.
- Localisation.GetSequenceProbabilities: uses the corrected filter and the de-duplicated site list (`asWritten` false in both). On two N-terminal PTMs with nPTM = 2 the source lists sites [0, 0], scores the profile [0, 0] and puts 200 on site 0; the model lists site 0 once and returns the "too few sites" error.
- SiteIons.SiteDeterminingIonsSound: the converse, that every profile producing a site-determining m/z is listed under it, is not stated because it does not hold. A drained common map is seeded again by the per-m/z emptiness test (PhosphoRS.java:708), and a later `put` (PhosphoRS.java:724) replaces an existing site-determining list, so a profile that produced an m/z can drop out of its list.
- Spectrum titles, precursors, file names and levels of the intermediate `MSnSpectrum` objects are not modelled: they do not influence any score.
- The `synchronized` modifier of `addDistributionToCache` and the static shared cache are left out. The cache is one `DistributionCache` object passed to the methods.
- The file system is a parameter (`CommandLine.FileSystem`), and a `File` is its absolute path. `listFiles` returning null is not modelled.
- `String.toLowerCase` is modelled for ASCII letters only, without locale rules.
- `Util.getFileName` is the file-system field `fileName`.
- `String.split` is modelled for the one-character separator ",", which is not a regular-expression metacharacter. `String.trim` removes characters up to ' '.
- MsgfParameters: Java `int` fields are unbounded integers, because the values are only stored, compared and printed.
- Msgf.MsgfParameters.Equals: an argument that is some other kind of parameter object is passed as null.
- The deprecated isotope-range fields have no accessors in the source, and none here.
- The platform line separator and `Advocate.getName()` are parameters of `ToString`. `Advocate.java` is not part of this model.
- `Serializable` support and the `serialVersionUID` are left out.

## Findings

| source | as written | input that shows it | evidently intended | confidence | as-written member | corrected member |
|---|---|---|---|---|---|---|
| src/main/java/com/compomics/util/experiment/identification/ptm/ptmscores/PhosphoRS.java:829-831 | `newMap.putAll(tempMap)` copies the window buffer, keyed by intensity, into the m/z-keyed peak map | peaks (m/z 1, intensity 50) and (m/z 50, intensity 2), tolerance 1: the first peak goes under key 50 and is then overwritten by the second, so the filtered spectrum loses it | put each buffered peak under its m/z, as the over-full branch (838) and the final flush (854) do | not executed; high | SpectrumFilter.AsWrittenLosesPeak | SpectrumFilter.CorrectedKeepsPeak |
| src/main/java/com/compomics/util/experiment/identification/ptm/ptmscores/PhosphoRS.java:167-174 | terminal PTMs add site 0 or L+1 without the `contains` check the other branch makes (177) | two N-terminal PTMs whose potential sites include 1 list site 0 twice, so profiles can repeat a site | every candidate site listed once | not executed; medium | Localisation.TerminalSiteListedTwice | Localisation.PossibleSitesFacts |
| src/main/java/com/compomics/util/experiment/identification/ptm/ptmscores/PhosphoRS.java:333-352 | `Double bestP = 0.0` starts the search for the lowest score of the windows without site-determining ions below every probability, so `bigP < bestP` never holds | a window without site-determining ions whose reduced spectra score 0.5 and then 0.1: depth 0 is kept although depth 1 scores lower | start from bestP = 1.0 (or the first score), so the lowest score wins, as in the branch with site-determining ions | not executed; medium | DepthSelection.PlainChoiceKeepsFirst | DepthSelection.PlainChoiceLowest |

The filter model takes a flag `asWritten`, and the finding is stated on both settings. `FilterSpectrum` and the rest of the model use the corrected form. `FilteredValuesAreInputPeaks` holds for both.

The plain depth choice is kept as written in the window loop: `PlainDepth`, `KeptSpectrum`, `ReduceSpectrum` and everything that uses them keep depth 0 in a window without site-determining ions (`PlainWindowKeepsTopPeak`). The corrected choice `PlainChoice` is defined and proved beside it but not used.

The candidate-site model also takes a flag. `GetPossibleSites` and everything downstream use the de-duplicated, strictly increasing site list.
