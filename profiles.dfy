/**
 * Modification profiles: the ways of placing nPtms indistinguishable
 * modifications on the candidate sites (PhosphoRS.getPossibleModificationProfiles).
 * A profile is the increasing list of its sites; it also serves as the
 * profile's key, where the source uses a string built from the list.
 */
module Profiles {

  type Profile = seq<int>

  function Last(p: Profile): int
    requires |p| > 0
  {
    p[|p| - 1]
  }

  predicate StrictlyIncreasing(s: seq<int>) {
    forall i, j :: 0 <= i < j < |s| ==> s[i] < s[j]
  }

  /** `c` is one way of placing `k` modifications on distinct sites of `sites`. */
  predicate IsProfileOf(c: Profile, sites: seq<int>, k: nat) {
    && |c| == k
    && StrictlyIncreasing(c)
    && forall i :: 0 <= i < |c| ==> c[i] in sites
  }

  /** Lexicographic order on profiles. */
  predicate LexLess(a: Profile, b: Profile) {
    && |a| > 0 && |b| > 0
    && (a[0] < b[0] || (a[0] == b[0] && LexLess(a[1..], b[1..])))
  }

  function Binomial(n: nat, k: nat): nat {
    if k == 0 then 1 else if n == 0 then 0 else Binomial(n - 1, k - 1) + Binomial(n - 1, k)
  }

  function Prepend(x: int, ps: seq<Profile>): (r: seq<Profile>)
    ensures |r| == |ps|
    ensures forall i :: 0 <= i < |ps| ==> r[i] == [x] + ps[i]
  {
    seq(|ps|, i requires 0 <= i < |ps| => [x] + ps[i])
  }

  /**
   * Reference definition: the k-combinations of `sites` in the order that
   * places the combinations using sites[0] first.
   */
  function Combinations(sites: seq<int>, k: nat): seq<Profile>
    decreases |sites|
  {
    if k == 0 then [[]]
    else if sites == [] then []
    else Prepend(sites[0], Combinations(sites[1..], k - 1)) + Combinations(sites[1..], k)
  }

  // ---------------------------------------------------------------------------
  // The source's construction: singletons first, then rounds of extension.

  /** The seed of the source: one singleton profile per site, in site order. */
  function Singles(s: seq<int>): (r: seq<Profile>)
    ensures |r| == |s|
    ensures forall i :: 0 <= i < |r| ==> r[i] == [s[i]]
  {
    if s == [] then [] else Singles(s[..|s| - 1]) + [[s[|s| - 1]]]
  }

  /** `p` followed by each site of `sites` larger than its last site, in site order. */
  function Extensions(p: Profile, sites: seq<int>): (r: seq<Profile>)
    requires |p| > 0
    ensures forall i :: 0 <= i < |r| ==> |r[i]| == |p| + 1
  {
    if sites == [] then []
    else
      var x := sites[|sites| - 1];
      Extensions(p, sites[..|sites| - 1]) + (if x > Last(p) then [p + [x]] else [])
  }

  predicate NonEmpty(ps: seq<Profile>) {
    forall i :: 0 <= i < |ps| ==> |ps[i]| > 0
  }

  /** One round of the outer loop: the extensions of every profile, in profile order. */
  function Extend(ps: seq<Profile>, sites: seq<int>): (r: seq<Profile>)
    requires NonEmpty(ps)
    ensures NonEmpty(r)
  {
    if ps == [] then []
    else Extend(ps[..|ps| - 1], sites) + Extensions(ps[|ps| - 1], sites)
  }

  /** The value of `result` after the outer loop has run up to `i`. */
  function Layers(sites: seq<int>, i: int): (r: seq<Profile>)
    ensures NonEmpty(r)
  {
    if i <= 1 then Singles(sites) else Extend(Layers(sites, i - 1), sites)
  }

  /**
   * getPossibleModificationProfiles: seeds the result with singletons, then for
   * i = 2..nPtms extends every profile by every larger site. The three inner
   * loops of the source are the helper methods below.
   */
  method PossibleModificationProfiles(possibleSites: seq<int>, nPtms: int) returns (result: seq<Profile>)
    ensures result == Layers(possibleSites, nPtms)
  {
    result := SeedProfiles(possibleSites);
    LayersBelowTwo(possibleSites, 1);
    var i := 2;
    while i <= nPtms
      invariant 2 <= i
      invariant i <= nPtms + 1 || i == 2
      invariant result == Layers(possibleSites, i - 1)
    {
      LayersStep(possibleSites, i);
      result := ExtendProfiles(result, possibleSites);
      i := i + 1;
    }
    if nPtms <= 1 {
      LayersBelowTwo(possibleSites, nPtms);
    } else {
      assert i - 1 == nPtms;
    }
  }

  /** First loop of the source: one singleton profile per site. */
  method SeedProfiles(possibleSites: seq<int>) returns (result: seq<Profile>)
    ensures result == Singles(possibleSites)
  {
    result := [];
    for b := 0 to |possibleSites|
      invariant result == Singles(possibleSites[..b])
    {
      assert possibleSites[..b + 1][..b] == possibleSites[..b];
      result := result + [[possibleSites[b]]];
    }
    assert possibleSites[..|possibleSites|] == possibleSites;
  }

  /** One pass of the outer loop: every previous profile extended in turn. */
  method ExtendProfiles(result: seq<Profile>, possibleSites: seq<int>) returns (resultAtI: seq<Profile>)
    requires NonEmpty(result)
    ensures resultAtI == Extend(result, possibleSites)
  {
    resultAtI := [];
    for a := 0 to |result|
      invariant resultAtI == Extend(result[..a], possibleSites)
    {
      var extensions := ExtendProfile(result[a], possibleSites);
      assert result[..a + 1][..a] == result[..a];
      resultAtI := resultAtI + extensions;
    }
    assert result[..|result|] == result;
  }

  /** Innermost loop: the previous profile followed by each larger site. */
  method ExtendProfile(previousProfile: Profile, possibleSites: seq<int>) returns (extensions: seq<Profile>)
    requires |previousProfile| > 0
    ensures extensions == Extensions(previousProfile, possibleSites)
  {
    extensions := [];
    var lastPos := previousProfile[|previousProfile| - 1];
    for b := 0 to |possibleSites|
      invariant extensions == Extensions(previousProfile, possibleSites[..b])
    {
      assert possibleSites[..b + 1][..b] == possibleSites[..b];
      if possibleSites[b] > lastPos {
        extensions := extensions + [previousProfile + [possibleSites[b]]];
      }
    }
    assert possibleSites[..|possibleSites|] == possibleSites;
  }

  lemma LayersBelowTwo(sites: seq<int>, n: int)
    requires n <= 1
    ensures Layers(sites, n) == Singles(sites)
  {
  }

  lemma LayersStep(sites: seq<int>, i: int)
    requires i >= 2
    ensures Layers(sites, i) == Extend(Layers(sites, i - 1), sites)
  {
  }

  // ---------------------------------------------------------------------------
  // Algebra of the construction.

  lemma {:induction false} SinglesCons(x: int, t: seq<int>)
    ensures Singles([x] + t) == [[x]] + Singles(t)
    decreases |t|
  {
    if t != [] {
      var u := [x] + t;
      assert u[..|u| - 1] == [x] + t[..|t| - 1];
      SinglesCons(x, t[..|t| - 1]);
    } else {
      assert ([x] + t)[..0] == [];
    }
  }

  lemma {:induction false} ExtensionsCons(p: Profile, x: int, t: seq<int>)
    requires |p| > 0
    ensures Extensions(p, [x] + t) == (if x > Last(p) then [p + [x]] else []) + Extensions(p, t)
    decreases |t|
  {
    var u := [x] + t;
    if t == [] {
      assert u[..|u| - 1] == [];
    } else {
      assert u[..|u| - 1] == [x] + t[..|t| - 1];
      ExtensionsCons(p, x, t[..|t| - 1]);
    }
  }

  lemma {:induction false} ExtendAppend(a: seq<Profile>, b: seq<Profile>, s: seq<int>)
    requires NonEmpty(a) && NonEmpty(b)
    ensures NonEmpty(a + b)
    ensures Extend(a + b, s) == Extend(a, s) + Extend(b, s)
    decreases |b|
  {
    assert NonEmpty(a + b) by {
      forall i | 0 <= i < |a + b| ensures |(a + b)[i]| > 0 {
        if i >= |a| { assert (a + b)[i] == b[i - |a|]; }
      }
    }
    if b == [] {
      assert a + b == a;
    } else {
      var b', last := b[..|b| - 1], b[|b| - 1];
      assert (a + b)[..|a + b| - 1] == a + b';
      assert (a + b)[|a + b| - 1] == last;
      ExtendAppend(a, b', s);
      assert Extend(a + b, s) == Extend(a + b', s) + Extensions(last, s);
      assert Extend(b, s) == Extend(b', s) + Extensions(last, s);
    }
  }

  /** Every profile of `c` is non-empty and ends at `x` or above. */
  predicate EndsAtLeast(c: seq<Profile>, x: int) {
    forall i :: 0 <= i < |c| ==> |c[i]| > 0 && Last(c[i]) >= x
  }

  /** A site not above any profile's last site never extends it. */
  lemma {:induction false} ExtendDrop(c: seq<Profile>, x: int, t: seq<int>)
    requires EndsAtLeast(c, x)
    ensures Extend(c, [x] + t) == Extend(c, t)
    decreases |c|
  {
    if c != [] {
      var c', last := c[..|c| - 1], c[|c| - 1];
      assert EndsAtLeast(c', x) by {
        forall i | 0 <= i < |c'| ensures |c'[i]| > 0 && Last(c'[i]) >= x { assert c'[i] == c[i]; }
      }
      ExtendDrop(c', x, t);
      ExtensionsCons(last, x, t);
      assert Extensions(last, [x] + t) == Extensions(last, t);
      assert Extend(c, [x] + t) == Extend(c', [x] + t) + Extensions(last, [x] + t);
      assert Extend(c, t) == Extend(c', t) + Extensions(last, t);
    }
  }

  lemma {:induction false} ExtensionsPrepend(x: int, c: Profile, t: seq<int>)
    requires |c| > 0
    ensures Extensions([x] + c, t) == Prepend(x, Extensions(c, t))
    decreases |t|
  {
    if t != [] {
      var t', y := t[..|t| - 1], t[|t| - 1];
      ExtensionsPrepend(x, c, t');
      assert ([x] + c) + [y] == [x] + (c + [y]);
      assert Last([x] + c) == Last(c);
      var tail := if y > Last(c) then [c + [y]] else [];
      assert Prepend(x, tail) == if y > Last(c) then [([x] + c) + [y]] else [];
      assert Extensions([x] + c, t) == Extensions([x] + c, t') + Prepend(x, tail);
      assert Extensions(c, t) == Extensions(c, t') + tail;
      PrependAppend(x, Extensions(c, t'), tail);
    }
  }

  lemma PrependAppend(x: int, a: seq<Profile>, b: seq<Profile>)
    ensures Prepend(x, a + b) == Prepend(x, a) + Prepend(x, b)
  {
  }

  lemma {:induction false} ExtendPrepend(x: int, c: seq<Profile>, t: seq<int>)
    requires NonEmpty(c)
    ensures NonEmpty(Prepend(x, c))
    ensures Extend(Prepend(x, c), t) == Prepend(x, Extend(c, t))
    decreases |c|
  {
    if c != [] {
      var c', last := c[..|c| - 1], c[|c| - 1];
      assert NonEmpty(c') by {
        forall i | 0 <= i < |c'| ensures |c'[i]| > 0 { assert c'[i] == c[i]; }
      }
      var pc := Prepend(x, c);
      assert pc[..|c| - 1] == Prepend(x, c');
      assert pc[|c| - 1] == [x] + last;
      ExtendPrepend(x, c', t);
      ExtensionsPrepend(x, last, t);
      assert Extend(pc, t) == Extend(Prepend(x, c'), t) + Extensions([x] + last, t);
      assert Extend(c, t) == Extend(c', t) + Extensions(last, t);
      PrependAppend(x, Extend(c', t), Extensions(last, t));
    }
  }

  lemma {:induction false} ExtensionsSingle(x: int, t: seq<int>)
    requires forall i :: 0 <= i < |t| ==> t[i] > x
    ensures Extensions([x], t) == Prepend(x, Singles(t))
    decreases |t|
  {
    if t != [] {
      ExtensionsSingle(x, t[..|t| - 1]);
      PrependAppend(x, Singles(t[..|t| - 1]), [[t[|t| - 1]]]);
    }
  }

  // ---------------------------------------------------------------------------
  // Properties of the reference definition.

  lemma {:induction false} CombinationsOne(s: seq<int>)
    ensures Combinations(s, 1) == Singles(s)
    decreases |s|
  {
    if s != [] {
      var x, t := s[0], s[1..];
      CombinationsOne(t);
      assert Combinations(t, 0) == [[]];
      assert Prepend(x, [[]])[0] == [x] + [] == [x];
      assert Prepend(x, [[]]) == [[x]];
      assert Combinations(s, 1) == [[x]] + Singles(t);
      assert s == [x] + t;
      SinglesCons(x, t);
    }
  }

  /** The sites after the first one are exactly the sites above it. */
  lemma TailOfIncreasing(s: seq<int>, v: int)
    requires StrictlyIncreasing(s) && |s| > 0
    ensures v in s[1..] <==> v in s && v > s[0]
    ensures StrictlyIncreasing(s[1..])
  {
    if v in s && v > s[0] {
      var m :| 0 <= m < |s| && s[m] == v;
      assert s[1..][m - 1] == v;
    }
    if v in s[1..] {
      var m :| 0 <= m < |s| - 1 && s[1..][m] == v;
      assert s[m + 1] == v;
    }
  }

  /** Every member of Combinations(s, k) is a profile of k distinct sites of s. */
  lemma {:induction false} CombinationsSound(s: seq<int>, k: nat, c: Profile)
    requires StrictlyIncreasing(s)
    requires c in Combinations(s, k)
    ensures IsProfileOf(c, s, k)
    decreases |s|
  {
    if k > 0 && s != [] {
      var x, t := s[0], s[1..];
      TailOfIncreasing(s, x);
      var a := Combinations(t, k - 1);
      var pa := Prepend(x, a);
      assert Combinations(s, k) == pa + Combinations(t, k);
      if c in pa {
        var d := PrependMember(x, a, c);
        CombinationsSound(t, k - 1, d);
        HeadProfile(s, k, d);
      } else {
        assert c in Combinations(t, k);
        CombinationsSound(t, k, c);
        TailProfile(s, k, c);
      }
    }
  }

  /** A member of Prepend(x, a) is x in front of a member of a. */
  lemma PrependMember(x: int, a: seq<Profile>, c: Profile) returns (d: Profile)
    requires c in Prepend(x, a)
    ensures d in a && c == [x] + d
  {
    var j :| 0 <= j < |a| && Prepend(x, a)[j] == c;
    d := a[j];
  }

  /** A profile of k - 1 sites after the first site, with the first site put in front, is a profile of k sites. */
  lemma HeadProfile(s: seq<int>, k: nat, d: Profile)
    requires StrictlyIncreasing(s) && |s| > 0 && k > 0
    requires IsProfileOf(d, s[1..], k - 1)
    ensures IsProfileOf([s[0]] + d, s, k)
  {
    var c := [s[0]] + d;
    forall i | 0 <= i < |d| ensures d[i] in s && s[0] < d[i] {
      TailOfIncreasing(s, d[i]);
    }
    assert forall i :: 0 < i < |c| ==> c[i] == d[i - 1];
  }

  /** A profile of sites after the first site is a profile of the sites. */
  lemma TailProfile(s: seq<int>, k: nat, c: Profile)
    requires StrictlyIncreasing(s) && |s| > 0
    requires IsProfileOf(c, s[1..], k)
    ensures IsProfileOf(c, s, k)
  {
    forall i | 0 <= i < |c| ensures c[i] in s {
      TailOfIncreasing(s, c[i]);
    }
  }

  /** Every profile of k distinct sites of s is a member of Combinations(s, k). */
  lemma {:induction false} CombinationsComplete(s: seq<int>, k: nat, c: Profile)
    requires StrictlyIncreasing(s)
    requires IsProfileOf(c, s, k)
    ensures c in Combinations(s, k)
    decreases |s|
  {
    if k == 0 {
      assert c == [];
    } else {
      assert c[0] in s;
      var x, t := s[0], s[1..];
      TailOfIncreasing(s, x);
      var a := Combinations(t, k - 1);
      var pa := Prepend(x, a);
      assert Combinations(s, k) == pa + Combinations(t, k);
      var m :| 0 <= m < |s| && s[m] == c[0];
      if m == 0 {
        var d := c[1..];
        forall i | 0 <= i < |d| ensures d[i] in t {
          assert d[i] == c[i + 1] && c[i + 1] > x;
          TailOfIncreasing(s, d[i]);
        }
        assert IsProfileOf(d, t, k - 1);
        CombinationsComplete(t, k - 1, d);
        var j :| 0 <= j < |a| && a[j] == d;
        assert c == [x] + d;
        assert pa[j] == c;
      } else {
        assert c[0] > x;
        forall i | 0 <= i < |c| ensures c[i] in t {
          assert i > 0 ==> c[i] > c[0];
          TailOfIncreasing(s, c[i]);
        }
        CombinationsComplete(t, k, c);
      }
    }
  }

  lemma {:induction false} CombinationsCount(s: seq<int>, k: nat)
    ensures |Combinations(s, k)| == Binomial(|s|, k)
    decreases |s|
  {
    if k > 0 && s != [] {
      CombinationsCount(s[1..], k - 1);
      CombinationsCount(s[1..], k);
      CombinationsSplitCount(s, k);
    }
  }

  /** The k-combinations split into those with the first site and those without. */
  lemma CombinationsSplitCount(s: seq<int>, k: nat)
    requires k > 0 && s != []
    ensures |Combinations(s, k)| == |Combinations(s[1..], k - 1)| + |Combinations(s[1..], k)|
    ensures Binomial(|s|, k) == Binomial(|s[1..]|, k - 1) + Binomial(|s[1..]|, k)
  {
    assert Combinations(s, k) == Prepend(s[0], Combinations(s[1..], k - 1)) + Combinations(s[1..], k);
  }

  /** On increasing sites the combinations come in strictly increasing lexicographic order. */
  lemma {:induction false} CombinationsLexOrdered(s: seq<int>, k: nat)
    requires StrictlyIncreasing(s)
    requires k >= 1
    ensures forall i, j :: 0 <= i < j < |Combinations(s, k)| ==> LexLess(Combinations(s, k)[i], Combinations(s, k)[j])
    decreases |s|
  {
    if s != [] {
      var x, t := s[0], s[1..];
      assert StrictlyIncreasing(t);
      var a := Combinations(t, k - 1);
      var b := Combinations(t, k);
      var pa := Prepend(x, a);
      var r := Combinations(s, k);
      assert r == pa + b;
      CombinationsLexOrdered(t, k);
      if k > 1 {
        CombinationsLexOrdered(t, k - 1);
      }
      assert k == 1 ==> |pa| == 1;
      forall i, j | 0 <= i < j < |r| ensures LexLess(r[i], r[j]) {
        if j < |pa| {
          assert r[i] == [x] + a[i] && r[j] == [x] + a[j];
          assert ([x] + a[i])[1..] == a[i];
          assert ([x] + a[j])[1..] == a[j];
        } else if i < |pa| {
          var c := b[j - |pa|];
          assert r[j] == c;
          CombinationsSound(t, k, c);
          assert c[0] in t;
          var m :| 0 <= m < |t| && t[m] == c[0];
          assert s[m + 1] == c[0];
          assert r[i] == [x] + a[i];
        } else {
          assert r[i] == b[i - |pa|] && r[j] == b[j - |pa|];
        }
      }
    }
  }

  /** Every profile ending in a site of the increasing `t` ends above `x` when `[x] + t` increases. */
  lemma EndsAboveHead(x: int, t: seq<int>, c: seq<Profile>, k: nat)
    requires StrictlyIncreasing([x] + t)
    requires k >= 1
    requires c == Combinations(t, k)
    ensures EndsAtLeast(c, x)
  {
    var s := [x] + t;
    assert s[1..] == t;
    TailOfIncreasing(s, x);
    forall i | 0 <= i < |c| ensures |c[i]| > 0 && Last(c[i]) >= x {
      CombinationsSound(t, k, c[i]);
      TailOfIncreasing(s, Last(c[i]));
    }
  }

  /** k = 2, profiles starting with x: [x] is extended by every later site. */
  lemma ExtendHeadPair(x: int, t: seq<int>)
    requires StrictlyIncreasing([x] + t)
    ensures Extend(Prepend(x, Combinations(t, 0)), [x] + t) == Prepend(x, Combinations(t, 1))
  {
    var s := [x] + t;
    assert s[1..] == t;
    var pa := Prepend(x, Combinations(t, 0));
    assert pa[0] == [x] + [] == [x];
    assert pa == [[x]];
    assert Extend(pa, s) == Extensions([x], s);
    ExtensionsCons([x], x, t);
    forall i | 0 <= i < |t| ensures t[i] > x {
      TailOfIncreasing(s, t[i]);
    }
    ExtensionsSingle(x, t);
    CombinationsOne(t);
  }

  /** k > 2, profiles starting with x: the extension round commutes with prefixing x. */
  lemma ExtendHeadDeep(x: int, t: seq<int>, k: nat)
    requires StrictlyIncreasing([x] + t)
    requires k > 2
    requires NonEmpty(Combinations(t, k - 2))
    requires Extend(Combinations(t, k - 2), t) == Combinations(t, k - 1)
    ensures NonEmpty(Prepend(x, Combinations(t, k - 2)))
    ensures Extend(Prepend(x, Combinations(t, k - 2)), [x] + t) == Prepend(x, Combinations(t, k - 1))
  {
    var s := [x] + t;
    var a := Combinations(t, k - 2);
    var pa := Prepend(x, a);
    EndsAboveHead(x, t, a, k - 2);
    assert EndsAtLeast(pa, x) by {
      forall i | 0 <= i < |pa| ensures |pa[i]| > 0 && Last(pa[i]) >= x {
        assert pa[i] == [x] + a[i];
      }
    }
    ExtendDrop(pa, x, t);
    ExtendPrepend(x, a, t);
  }

  /** The inductive step of ExtendCombinations, for sites [x] + t. */
  lemma ExtendCombinationsStep(x: int, t: seq<int>, k: nat)
    requires StrictlyIncreasing([x] + t)
    requires k >= 2
    requires k > 2 ==> NonEmpty(Combinations(t, k - 2)) && Extend(Combinations(t, k - 2), t) == Combinations(t, k - 1)
    requires NonEmpty(Combinations(t, k - 1)) && Extend(Combinations(t, k - 1), t) == Combinations(t, k)
    ensures NonEmpty(Combinations([x] + t, k - 1))
    ensures Extend(Combinations([x] + t, k - 1), [x] + t) == Combinations([x] + t, k)
  {
    var s := [x] + t;
    assert s[0] == x && s[1..] == t;
    var pa := Prepend(x, Combinations(t, k - 2));
    var b := Combinations(t, k - 1);
    assert Combinations(s, k - 1) == pa + b;
    assert Combinations(s, k) == Prepend(x, b) + Combinations(t, k);
    if k == 2 {
      ExtendHeadPair(x, t);
      assert NonEmpty(pa) by { assert pa[0] == [x] + []; }
    } else {
      ExtendHeadDeep(x, t, k);
    }
    EndsAboveHead(x, t, b, k - 1);
    ExtendDrop(b, x, t);
    ExtendAppend(pa, b, s);
  }

  /** One extension round turns the (k-1)-combinations into the k-combinations. */
  lemma {:induction false} ExtendCombinations(s: seq<int>, k: nat)
    requires StrictlyIncreasing(s)
    requires k >= 2
    ensures NonEmpty(Combinations(s, k - 1))
    ensures Extend(Combinations(s, k - 1), s) == Combinations(s, k)
    decreases |s|
  {
    if s == [] {
      assert Combinations(s, k - 1) == [];
    } else {
      var x, t := s[0], s[1..];
      assert s == [x] + t;
      assert StrictlyIncreasing(t);
      if k > 2 {
        ExtendCombinations(t, k - 1);
      }
      ExtendCombinations(t, k);
      ExtendCombinationsStep(x, t, k);
    }
  }

  lemma CombinationsNonEmpty(s: seq<int>, k: nat)
    requires StrictlyIncreasing(s)
    requires k >= 1
    ensures NonEmpty(Combinations(s, k))
  {
    forall i | 0 <= i < |Combinations(s, k)| ensures |Combinations(s, k)[i]| > 0 {
      CombinationsSound(s, k, Combinations(s, k)[i]);
    }
  }

  /** On strictly increasing sites and nPtms >= 1 the source's construction is the reference one. */
  lemma {:induction false} LayersEqualCombinations(sites: seq<int>, nPtms: nat)
    requires StrictlyIncreasing(sites)
    requires nPtms >= 1
    ensures Layers(sites, nPtms) == Combinations(sites, nPtms)
  {
    if nPtms == 1 {
      CombinationsOne(sites);
    } else {
      LayersEqualCombinations(sites, nPtms - 1);
      ExtendCombinations(sites, nPtms);
    }
  }

  /**
   * On strictly increasing sites and nPtms >= 1 the source's construction yields
   * exactly the nPtms-combinations, C(m, nPtms) of them, each an increasing list
   * of nPtms sites, in strictly increasing lexicographic order.
   */
  lemma LayersAreCombinations(sites: seq<int>, nPtms: nat)
    requires StrictlyIncreasing(sites)
    requires nPtms >= 1
    ensures |Layers(sites, nPtms)| == Binomial(|sites|, nPtms)
    ensures forall c :: c in Layers(sites, nPtms) <==> IsProfileOf(c, sites, nPtms)
    ensures forall i, j :: 0 <= i < j < |Layers(sites, nPtms)| ==> LexLess(Layers(sites, nPtms)[i], Layers(sites, nPtms)[j])
  {
    LayersEqualCombinations(sites, nPtms);
    var r := Combinations(sites, nPtms);
    CombinationsCount(sites, nPtms);
    CombinationsLexOrdered(sites, nPtms);
    forall c ensures c in r <==> IsProfileOf(c, sites, nPtms) {
      if c in r {
        CombinationsSound(sites, nPtms, c);
      }
      if IsProfileOf(c, sites, nPtms) {
        CombinationsComplete(sites, nPtms, c);
      }
    }
  }

  /** With nPtms <= 1 the outer loop never runs: one singleton per site. */
  lemma {:induction false} SingletonProfiles(sites: seq<int>, nPtms: int)
    requires nPtms <= 1
    ensures |Layers(sites, nPtms)| == |sites|
    ensures forall i :: 0 <= i < |sites| ==> Layers(sites, nPtms)[i] == [sites[i]]
    decreases |sites|
  {
    if sites != [] {
      SingletonProfiles(sites[..|sites| - 1], nPtms);
    }
  }

  /** Every site lies in some profile when there are at least k >= 1 of them. */
  lemma {:induction false} CombinationsCover(s: seq<int>, k: nat, x: int)
    requires StrictlyIncreasing(s)
    requires 1 <= k <= |s|
    requires x in s
    ensures exists c :: c in Combinations(s, k) && x in c
    decreases |s|
  {
    var t := s[1..];
    if x == s[0] {
      var c := FirstSitesProfile(s, k);
      CombinationsComplete(s, k, c);
      assert c[0] == x;
    } else {
      TailOfIncreasing(s, x);
      if k <= |t| {
        CombinationsCover(t, k, x);
        var c :| c in Combinations(t, k) && x in c;
        CoverFromTail(s, k, c);
      } else {
        // k == |s|: the only combination is s itself.
        assert IsProfileOf(s, s, k);
        CombinationsComplete(s, k, s);
      }
    }
  }

  /** The first k sites form a profile. */
  lemma FirstSitesProfile(s: seq<int>, k: nat) returns (c: Profile)
    requires StrictlyIncreasing(s) && 1 <= k <= |s|
    ensures c == s[..k] && |c| > 0 && c[0] == s[0] && IsProfileOf(c, s, k)
  {
    c := s[..k];
    forall i | 0 <= i < |c| ensures c[i] in s {
      assert c[i] == s[i];
    }
  }

  /** A k-combination of the sites after the first is a k-combination of the sites. */
  lemma CoverFromTail(s: seq<int>, k: nat, c: Profile)
    requires |s| > 0 && k >= 1
    requires c in Combinations(s[1..], k)
    ensures c in Combinations(s, k)
  {
    assert Combinations(s, k) == Prepend(s[0], Combinations(s[1..], k - 1)) + Combinations(s[1..], k);
  }

  /** No profile precedes itself. */
  lemma {:induction false} LexLessIrreflexive(a: Profile)
    ensures !LexLess(a, a)
    decreases |a|
  {
    if |a| > 0 {
      LexLessIrreflexive(a[1..]);
    }
  }

  /** Over increasing sites the profiles are pairwise different. */
  lemma LayersDistinct(sites: seq<int>, nPtms: nat)
    requires StrictlyIncreasing(sites)
    requires nPtms >= 1
    ensures forall i, j :: 0 <= i < j < |Layers(sites, nPtms)| ==> Layers(sites, nPtms)[i] != Layers(sites, nPtms)[j]
  {
    LayersAreCombinations(sites, nPtms);
    var r := Layers(sites, nPtms);
    forall i, j | 0 <= i < j < |r| ensures r[i] != r[j] {
      LexLessIrreflexive(r[i]);
    }
  }
}
