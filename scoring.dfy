/**
 * Care-gap scoring: the numerator and denominator counts read from a
 * report's groups, the proportion computed from them with Java `int`
 * division, and the improvement-notation test that decides whether a gap
 * exists.
 */
module Scoring {
  import opened Fhir
  import Text

  const NumeratorCode := "numerator"
  const DenominatorCode := "denominator"
  const ProportionCode := "proportion"
  const IncreaseCode := "increase"
  const DecreaseCode := "decrease"

  // ---------------------------------------------------------------------
  // Counts
  // ---------------------------------------------------------------------

  /** What one coding of a population contributes: the count, when the coding's code is `code`. */
  function Hit(c: Coding, count: Option<int32>, code: string): seq<int32> {
    if c.code == Some(code) && count.Some? then [count.value] else []
  }

  /** The values a population's codings contribute, in coding order. */
  function CodingMatches(codings: seq<Coding>, count: Option<int32>, code: string): seq<int32> {
    if codings == [] then []
    else CodingMatches(codings[..|codings| - 1], count, code) + Hit(codings[|codings| - 1], count, code)
  }

  function PopulationsMatches(ps: seq<Population>, code: string): seq<int32> {
    if ps == [] then []
    else PopulationsMatches(ps[..|ps| - 1], code)
         + CodingMatches(ps[|ps| - 1].code.codings, ps[|ps| - 1].count, code)
  }

  /** Every value assigned to the counter for `code`, in the order the nested loops assign them. */
  function GroupsMatches(gs: seq<Group>, code: string): seq<int32> {
    if gs == [] then []
    else GroupsMatches(gs[..|gs| - 1], code) + PopulationsMatches(gs[|gs| - 1].populations, code)
  }

  function LastOr(s: seq<int32>, default: int32): int32 {
    if s == [] then default else s[|s| - 1]
  }

  /** The counter after the loops: it starts at 0 and each assignment overwrites it. */
  function Count(gs: seq<Group>, code: string): int32 {
    LastOr(GroupsMatches(gs, code), 0)
  }

  /** A population contributes its count when it has one and some coding carries exactly `code`. */
  predicate PopulationContributes(p: Population, code: string) {
    p.count.Some? && exists k :: 0 <= k < |p.code.codings| && p.code.codings[k].code == Some(code)
  }

  predicate GroupContributes(g: Group, code: string) {
    exists j :: 0 <= j < |g.populations| && PopulationContributes(g.populations[j], code)
  }

  predicate AnyContributes(gs: seq<Group>, code: string) {
    exists i :: 0 <= i < |gs| && GroupContributes(gs[i], code)
  }

  predicate IsContribution(gs: seq<Group>, code: string, v: int32) {
    exists i, j :: 0 <= i < |gs| && 0 <= j < |gs[i].populations|
      && PopulationContributes(gs[i].populations[j], code) && gs[i].populations[j].count == Some(v)
  }

  lemma {:induction false} CodingMatchesSpec(codings: seq<Coding>, count: Option<int32>, code: string)
    ensures CodingMatches(codings, count, code) == [] <==>
            !(count.Some? && exists k :: 0 <= k < |codings| && codings[k].code == Some(code))
    ensures forall v :: v in CodingMatches(codings, count, code) ==> count == Some(v)
  {
    if codings != [] {
      var init := codings[..|codings| - 1];
      CodingMatchesSpec(init, count, code);
      if count.Some? && (exists k :: 0 <= k < |codings| && codings[k].code == Some(code))
         && !(exists k :: 0 <= k < |init| && init[k].code == Some(code)) {
        forall k | 0 <= k < |init| ensures init[k] == codings[k] { }
        var k :| 0 <= k < |codings| && codings[k].code == Some(code);
        assert k == |codings| - 1;
      }
    }
  }

  lemma {:induction false} PopulationsMatchesSpec(ps: seq<Population>, code: string)
    ensures PopulationsMatches(ps, code) == [] <==>
            !(exists j :: 0 <= j < |ps| && PopulationContributes(ps[j], code))
    ensures forall v :: v in PopulationsMatches(ps, code) ==>
            exists j :: 0 <= j < |ps| && PopulationContributes(ps[j], code) && ps[j].count == Some(v)
  {
    if ps != [] {
      var init, last := ps[..|ps| - 1], ps[|ps| - 1];
      PopulationsMatchesSpec(init, code);
      CodingMatchesSpec(last.code.codings, last.count, code);
      forall j | 0 <= j < |init| ensures init[j] == ps[j] { }
      forall v | v in PopulationsMatches(ps, code)
        ensures exists j :: 0 <= j < |ps| && PopulationContributes(ps[j], code) && ps[j].count == Some(v)
      {
        if v in PopulationsMatches(init, code) {
          var j :| 0 <= j < |init| && PopulationContributes(init[j], code) && init[j].count == Some(v);
          assert ps[j] == init[j];
        } else {
          assert v in CodingMatches(last.code.codings, last.count, code);
          assert PopulationContributes(ps[|ps| - 1], code);
        }
      }
    }
  }

  lemma {:induction false} GroupsMatchesSpec(gs: seq<Group>, code: string)
    ensures GroupsMatches(gs, code) == [] <==> !AnyContributes(gs, code)
    ensures forall v :: v in GroupsMatches(gs, code) ==> IsContribution(gs, code, v)
  {
    if gs != [] {
      var init, last := gs[..|gs| - 1], gs[|gs| - 1];
      GroupsMatchesSpec(init, code);
      PopulationsMatchesSpec(last.populations, code);
      forall i | 0 <= i < |init| ensures init[i] == gs[i] { }
      forall v | v in GroupsMatches(gs, code) ensures IsContribution(gs, code, v) {
        if v in GroupsMatches(init, code) {
          var i, j :| 0 <= i < |init| && 0 <= j < |init[i].populations|
            && PopulationContributes(init[i].populations[j], code) && init[i].populations[j].count == Some(v);
          assert gs[i] == init[i];
        } else {
          assert v in PopulationsMatches(last.populations, code);
          var j :| 0 <= j < |last.populations| && PopulationContributes(last.populations[j], code)
            && last.populations[j].count == Some(v);
          assert gs[|gs| - 1] == last;
        }
      }
      if AnyContributes(gs, code) && !AnyContributes(init, code) {
        var i :| 0 <= i < |gs| && GroupContributes(gs[i], code);
        assert i == |gs| - 1;
      }
    }
  }

  /**
   * Population j of group i is the last contributing one in loop order: no
   * later population of group i contributes, and no later group does.
   */
  predicate LastContributor(gs: seq<Group>, code: string, i: int, j: int) {
    && 0 <= i < |gs| && 0 <= j < |gs[i].populations|
    && PopulationContributes(gs[i].populations[j], code)
    && (forall j' :: j < j' < |gs[i].populations| ==> !PopulationContributes(gs[i].populations[j'], code))
    && (forall i' :: i < i' < |gs| ==> !GroupContributes(gs[i'], code))
  }

  /**
   * The counter stays 0 unless some population has a count and a coding whose
   * code is exactly `code`; otherwise it holds the count of the last such
   * population the loops meet.
   */
  lemma CountIsContribution(gs: seq<Group>, code: string)
    ensures !AnyContributes(gs, code) ==> Count(gs, code) == 0
    ensures AnyContributes(gs, code) ==> IsContribution(gs, code, Count(gs, code))
    ensures AnyContributes(gs, code) ==>
              exists i, j :: LastContributor(gs, code, i, j) && Count(gs, code) == gs[i].populations[j].count.value
  {
    GroupsMatchesSpec(gs, code);
    var ms := GroupsMatches(gs, code);
    if ms != [] {
      assert ms[|ms| - 1] in ms;
      LastContributorExists(gs, code);
      var i, j :| LastContributor(gs, code, i, j);
      GroupsLast(gs, code, i, j);
    }
  }

  lemma {:induction false} PopulationsLast(ps: seq<Population>, code: string, j: nat)
    requires j < |ps| && PopulationContributes(ps[j], code)
    requires forall j' :: j < j' < |ps| ==> !PopulationContributes(ps[j'], code)
    ensures PopulationsMatches(ps, code) != []
    ensures LastOr(PopulationsMatches(ps, code), 0) == ps[j].count.value
  {
    var init, last := ps[..|ps| - 1], ps[|ps| - 1];
    CodingMatchesSpec(last.code.codings, last.count, code);
    var cm := CodingMatches(last.code.codings, last.count, code);
    if j == |ps| - 1 {
      assert cm[|cm| - 1] in cm;
      var all := PopulationsMatches(init, code) + cm;
      assert all[|all| - 1] == cm[|cm| - 1];
    } else {
      assert !PopulationContributes(ps[|ps| - 1], code);
      forall j' | j < j' < |init| ensures init[j'] == ps[j'] { }
      PopulationsLast(init, code, j);
      assert PopulationsMatches(ps, code) == PopulationsMatches(init, code) + [];
    }
  }

  lemma {:induction false} GroupsLast(gs: seq<Group>, code: string, i: nat, j: nat)
    requires LastContributor(gs, code, i, j)
    ensures Count(gs, code) == gs[i].populations[j].count.value
  {
    var init, last := gs[..|gs| - 1], gs[|gs| - 1];
    if i == |gs| - 1 {
      PopulationsLast(last.populations, code, j);
      var pm := PopulationsMatches(last.populations, code);
      var all := GroupsMatches(init, code) + pm;
      assert all[|all| - 1] == pm[|pm| - 1];
    } else {
      PopulationsMatchesSpec(last.populations, code);
      assert !GroupContributes(gs[|gs| - 1], code);
      assert GroupsMatches(gs, code) == GroupsMatches(init, code) + [];
      forall i' | i < i' < |init| ensures init[i'] == gs[i'] { }
      assert LastContributor(init, code, i, j);
      GroupsLast(init, code, i, j);
    }
  }

  /** The last contributing population of a list that has one. */
  lemma {:induction false} LastPopulation(ps: seq<Population>, code: string) returns (j: nat)
    requires exists j :: 0 <= j < |ps| && PopulationContributes(ps[j], code)
    ensures j < |ps| && PopulationContributes(ps[j], code)
    ensures forall j' :: j < j' < |ps| ==> !PopulationContributes(ps[j'], code)
  {
    var init := ps[..|ps| - 1];
    if PopulationContributes(ps[|ps| - 1], code) {
      j := |ps| - 1;
    } else {
      var j0 :| 0 <= j0 < |ps| && PopulationContributes(ps[j0], code);
      assert init[j0] == ps[j0];
      j := LastPopulation(init, code);
      assert ps[j] == init[j];
      forall j' | j < j' < |ps| ensures !PopulationContributes(ps[j'], code) {
        if j' < |init| {
          assert ps[j'] == init[j'];
        }
      }
    }
  }

  lemma {:induction false} LastContributorExists(gs: seq<Group>, code: string)
    requires AnyContributes(gs, code)
    ensures exists i, j :: LastContributor(gs, code, i, j)
  {
    if GroupContributes(gs[|gs| - 1], code) {
      var j := LastInLastGroup(gs, code);
    } else {
      EarlierContributes(gs, code);
      LastContributorExists(gs[..|gs| - 1], code);
      var i, j :| LastContributor(gs[..|gs| - 1], code, i, j);
      LastContributorLifts(gs, code, i, j);
    }
  }

  /** When the last group contributes, its last contributing population is the last contributor. */
  lemma LastInLastGroup(gs: seq<Group>, code: string) returns (j: nat)
    requires |gs| >= 1 && GroupContributes(gs[|gs| - 1], code)
    ensures LastContributor(gs, code, |gs| - 1, j)
  {
    j := LastPopulation(gs[|gs| - 1].populations, code);
  }

  lemma EarlierContributes(gs: seq<Group>, code: string)
    requires AnyContributes(gs, code) && !GroupContributes(gs[|gs| - 1], code)
    ensures AnyContributes(gs[..|gs| - 1], code)
  {
    var i0 :| 0 <= i0 < |gs| && GroupContributes(gs[i0], code);
    assert gs[..|gs| - 1][i0] == gs[i0];
  }

  /** A last contributor of all groups but the last stays last when the last group is silent. */
  lemma LastContributorLifts(gs: seq<Group>, code: string, i: nat, j: nat)
    requires |gs| >= 1 && !GroupContributes(gs[|gs| - 1], code)
    requires LastContributor(gs[..|gs| - 1], code, i, j)
    ensures LastContributor(gs, code, i, j)
  {
    var init := gs[..|gs| - 1];
    assert gs[i] == init[i];
    forall i' | i < i' < |gs| ensures !GroupContributes(gs[i'], code) {
      if i' < |init| {
        assert gs[i'] == init[i'];
      }
    }
  }


  lemma {:induction false} GroupsMatchesAppend(gs1: seq<Group>, gs2: seq<Group>, code: string)
    ensures GroupsMatches(gs1 + gs2, code) == GroupsMatches(gs1, code) + GroupsMatches(gs2, code)
  {
    if gs2 == [] {
      assert gs1 + gs2 == gs1;
    } else {
      var init := gs2[..|gs2| - 1];
      assert (gs1 + gs2)[..|gs1 + gs2| - 1] == gs1 + init;
      GroupsMatchesLast(gs1 + gs2, code);
      GroupsMatchesLast(gs2, code);
      GroupsMatchesAppend(gs1, init, code);
    }
  }

  /** The groups' assignments are those of all groups but the last, then the last one's. */
  lemma GroupsMatchesLast(gs: seq<Group>, code: string)
    requires gs != []
    ensures GroupsMatches(gs, code)
            == GroupsMatches(gs[..|gs| - 1], code) + PopulationsMatches(gs[|gs| - 1].populations, code)
  {
  }

  /** Last match wins: a later group that contributes overrides every earlier value. */
  lemma LaterGroupsWin(gs1: seq<Group>, gs2: seq<Group>, code: string)
    requires AnyContributes(gs2, code)
    ensures Count(gs1 + gs2, code) == Count(gs2, code)
  {
    GroupsMatchesAppend(gs1, gs2, code);
    GroupsMatchesSpec(gs2, code);
  }

  /** Groups that contribute nothing leave the earlier value in place. */
  lemma SilentGroupsKeepCount(gs1: seq<Group>, gs2: seq<Group>, code: string)
    requires !AnyContributes(gs2, code)
    ensures Count(gs1 + gs2, code) == Count(gs1, code)
  {
    GroupsMatchesAppend(gs1, gs2, code);
    GroupsMatchesSpec(gs2, code);
    assert GroupsMatches(gs1, code) + [] == GroupsMatches(gs1, code);
  }

  lemma NumeratorIsNotDenominator()
    ensures !Text.IsBlank(NumeratorCode) && !Text.IsBlank(DenominatorCode) && !Text.IsBlank(ProportionCode)
  {
    assert NumeratorCode[0] == 'n';
    assert DenominatorCode[0] == 'd';
    assert ProportionCode[0] == 'p';
  }

  lemma LastOrHit(seen: seq<int32>, c: Coding, count: Option<int32>, code: string, default: int32)
    ensures LastOr(seen + Hit(c, count, code), default) ==
            if c.code == Some(code) && count.Some? then count.value else LastOr(seen, default)
  {
    if !(c.code == Some(code) && count.Some?) {
      assert seen + Hit(c, count, code) == seen;
    }
  }

  /** Overwriting after `seen` with the values `s`: the default of the second step is the result of the first. */
  lemma LastOrAppend(seen: seq<int32>, s: seq<int32>, default: int32)
    ensures LastOr(s, LastOr(seen, default)) == LastOr(seen + s, default)
  {
  }

  lemma CodingMatchesStep(codings: seq<Coding>, k: nat, count: Option<int32>, code: string)
    requires k < |codings|
    ensures CodingMatches(codings[..k + 1], count, code) == CodingMatches(codings[..k], count, code) + Hit(codings[k], count, code)
  {
    assert codings[..k + 1][..k] == codings[..k];
  }

  /** The innermost loop: the codings of one population, each match overwriting a counter. */
  method ScanCodings(population: Population, numerator0: int32, denominator0: int32)
    returns (numerator: int32, denominator: int32)
    ensures numerator == LastOr(CodingMatches(population.code.codings, population.count, NumeratorCode), numerator0)
    ensures denominator == LastOr(CodingMatches(population.code.codings, population.count, DenominatorCode), denominator0)
  {
    NumeratorIsNotDenominator();
    numerator, denominator := numerator0, denominator0;
    var codings := population.code.codings;
    var k := 0;
    while k < |codings|
      invariant 0 <= k <= |codings|
      invariant numerator == LastOr(CodingMatches(codings[..k], population.count, NumeratorCode), numerator0)
      invariant denominator == LastOr(CodingMatches(codings[..k], population.count, DenominatorCode), denominator0)
    {
      var coding := codings[k];
      CodingMatchesStep(codings, k, population.count, NumeratorCode);
      CodingMatchesStep(codings, k, population.count, DenominatorCode);
      LastOrHit(CodingMatches(codings[..k], population.count, NumeratorCode), coding, population.count, NumeratorCode, numerator0);
      LastOrHit(CodingMatches(codings[..k], population.count, DenominatorCode), coding, population.count, DenominatorCode, denominator0);
      if Present(coding.code) {
        if coding.code.value == NumeratorCode && population.count.Some? {
          numerator := population.count.value;
        } else if coding.code.value == DenominatorCode && population.count.Some? {
          denominator := population.count.value;
        }
      }
      k := k + 1;
    }
    assert codings[..k] == codings;
  }

  lemma PopulationsMatchesStep(ps: seq<Population>, j: nat, code: string)
    requires j < |ps|
    ensures PopulationsMatches(ps[..j + 1], code)
            == PopulationsMatches(ps[..j], code) + CodingMatches(ps[j].code.codings, ps[j].count, code)
  {
    assert ps[..j + 1][..j] == ps[..j];
  }

  lemma GroupsMatchesStep(gs: seq<Group>, i: nat, code: string)
    requires i < |gs|
    ensures GroupsMatches(gs[..i + 1], code) == GroupsMatches(gs[..i], code) + PopulationsMatches(gs[i].populations, code)
  {
    assert gs[..i + 1][..i] == gs[..i];
  }

  /** The middle loop: the populations of one group. */
  method ScanPopulations(populations: seq<Population>, numerator0: int32, denominator0: int32)
    returns (numerator: int32, denominator: int32)
    ensures numerator == LastOr(PopulationsMatches(populations, NumeratorCode), numerator0)
    ensures denominator == LastOr(PopulationsMatches(populations, DenominatorCode), denominator0)
  {
    numerator, denominator := numerator0, denominator0;
    var j := 0;
    while j < |populations|
      invariant 0 <= j <= |populations|
      invariant numerator == LastOr(PopulationsMatches(populations[..j], NumeratorCode), numerator0)
      invariant denominator == LastOr(PopulationsMatches(populations[..j], DenominatorCode), denominator0)
    {
      var population := populations[j];
      PopulationsMatchesStep(populations, j, NumeratorCode);
      PopulationsMatchesStep(populations, j, DenominatorCode);
      LastOrAppend(PopulationsMatches(populations[..j], NumeratorCode),
                   CodingMatches(population.code.codings, population.count, NumeratorCode), numerator0);
      LastOrAppend(PopulationsMatches(populations[..j], DenominatorCode),
                   CodingMatches(population.code.codings, population.count, DenominatorCode), denominator0);
      numerator, denominator := ScanCodings(population, numerator, denominator);
      j := j + 1;
    }
    assert populations[..j] == populations;
  }

  /**
   * The outer loop over the groups, starting both counters at 0; the inner
   * loops are `ScanPopulations` and `ScanCodings`.
   */
  method ExtractCounts(groups: seq<Group>) returns (numerator: int32, denominator: int32)
    ensures numerator == Count(groups, NumeratorCode)
    ensures denominator == Count(groups, DenominatorCode)
  {
    numerator, denominator := 0, 0;
    var i := 0;
    while i < |groups|
      invariant 0 <= i <= |groups|
      invariant numerator == LastOr(GroupsMatches(groups[..i], NumeratorCode), 0)
      invariant denominator == LastOr(GroupsMatches(groups[..i], DenominatorCode), 0)
    {
      var populations := groups[i].populations;
      GroupsMatchesStep(groups, i, NumeratorCode);
      GroupsMatchesStep(groups, i, DenominatorCode);
      LastOrAppend(GroupsMatches(groups[..i], NumeratorCode), PopulationsMatches(populations, NumeratorCode), 0);
      LastOrAppend(GroupsMatches(groups[..i], DenominatorCode), PopulationsMatches(populations, DenominatorCode), 0);
      numerator, denominator := ScanPopulations(populations, numerator, denominator);
      i := i + 1;
    }
    assert groups[..i] == groups;
  }

  // ---------------------------------------------------------------------
  // Proportion
  // ---------------------------------------------------------------------

  function Abs(x: int): nat { if x < 0 then -x else x }

  /** Integer division rounding toward zero, as C-family languages do. */
  function TruncDiv(n: int, d: int): int
    requires d != 0
  {
    var q := Abs(n) / Abs(d);
    if (n < 0) == (d < 0) then q else -q
  }

  lemma DivBound(a: nat, b: nat)
    requires b >= 1
    ensures a / b <= a
    ensures b >= 2 ==> a / b <= a / 2
  {
    assert a == (a / b) * b + a % b;
    if b >= 2 {
      assert (a / b) * b >= (a / b) * 2;
    }
  }

  /** Every quotient fits in an `int` except `Integer.MIN_VALUE / -1`. */
  lemma TruncDivInRange(n: int, d: int)
    requires -0x8000_0000 <= n < 0x8000_0000 && -0x8000_0000 <= d < 0x8000_0000 && d != 0
    requires !(n == -0x8000_0000 && d == -1)
    ensures -0x8000_0000 <= TruncDiv(n, d) < 0x8000_0000
  {
    var q := Abs(n) / Abs(d);
    DivBound(Abs(n), Abs(d));
    if Abs(d) == 1 {
      assert q == Abs(n);
    }
  }

  const MinInt32: int32 := -0x8000_0000

  /** Java `int / int`: truncates, and `Integer.MIN_VALUE / -1` wraps to `Integer.MIN_VALUE`. */
  function JavaDiv(n: int32, d: int32): int32
    requires d != 0
  {
    if n == MinInt32 && d == -1 then MinInt32
    else
      TruncDivInRange(n as int, d as int);
      TruncDiv(n as int, d as int) as int32
  }

  lemma DivZeroIff(n: int, d: int)
    requires 0 <= n && 0 < d
    ensures n / d == 0 <==> n < d
  {
    if n >= d {
      var q := n / d;
      assert n == q * d + n % d;
    }
  }

  /** On non-negative operands truncation and Dafny's division agree. */
  lemma JavaDivNonNegative(n: int32, d: int32)
    requires n >= 0 && d > 0
    ensures JavaDiv(n, d) as int == (n as int) / (d as int)
    ensures JavaDiv(n, d) == 0 <==> n < d
  {
    DivZeroIff(n as int, d as int);
  }

  lemma TruncDivSigns(n: int, d: int)
    requires d != 0
    ensures TruncDiv(-n, d) == -TruncDiv(n, d)
    ensures TruncDiv(n, -d) == -TruncDiv(n, d)
  {
    assert Abs(-n) == Abs(n) && Abs(-d) == Abs(d);
    if n == 0 {
      assert Abs(n) / Abs(d) == 0;
    }
  }

  /** Truncation is odd in each operand: the quotient's magnitude never depends on the signs. */
  lemma JavaDivSigns(n: int32, d: int32)
    requires d != 0 && n != MinInt32 && d != MinInt32
    ensures JavaDiv(-n, d) == -JavaDiv(n, d)
    ensures JavaDiv(n, -d) == -JavaDiv(n, d)
  {
    TruncDivSigns(n as int, d as int);
    assert (-n) as int == -(n as int) && (-d) as int == -(d as int);
  }

  /** 3 / 10 in Java is 0, not 0.3. */
  lemma ThreeOfTenIsZero()
    ensures JavaDiv(3, 10) == 0
  {
    JavaDivNonNegative(3, 10);
  }

  predicate HasCoding(cc: CodeableConcept) {
    exists i :: 0 <= i < |cc.codings| && CodingHasContent(cc.codings[i])
  }

  predicate HasProportionCoding(scoring: CodeableConcept) {
    exists i :: 0 <= i < |scoring.codings| && scoring.codings[i].code == Some(ProportionCode)
  }

  /** The proportion: the truncated quotient when the denominator is non-zero and the scoring is "proportion", else 0. */
  function ScoreProportion(scoring: CodeableConcept, numerator: int32, denominator: int32): int32 {
    if denominator != 0 && HasProportionCoding(scoring) then JavaDiv(numerator, denominator) else 0
  }

  /** The guarded loop over the scoring codings. */
  method Proportion(scoring: CodeableConcept, numerator: int32, denominator: int32) returns (proportion: int32)
    ensures proportion == ScoreProportion(scoring, numerator, denominator)
  {
    NumeratorIsNotDenominator();
    proportion := 0;
    if HasCoding(scoring) && denominator != 0 {
      var k := 0;
      while k < |scoring.codings|
        invariant 0 <= k <= |scoring.codings|
        invariant proportion == if exists i :: 0 <= i < k && scoring.codings[i].code == Some(ProportionCode)
                                then JavaDiv(numerator, denominator) else 0
      {
        var coding := scoring.codings[k];
        if Present(coding.code) && coding.code.value == ProportionCode {
          if denominator != 0 {
            proportion := JavaDiv(numerator, denominator);
          }
        }
        k := k + 1;
      }
    }
  }

  /** The proportion is non-zero only for a proportion measure with a non-zero denominator. */
  lemma ProportionNonZero(scoring: CodeableConcept, numerator: int32, denominator: int32)
    requires ScoreProportion(scoring, numerator, denominator) != 0
    ensures denominator != 0 && HasProportionCoding(scoring)
    ensures ScoreProportion(scoring, numerator, denominator) == JavaDiv(numerator, denominator)
  {
  }

  // ---------------------------------------------------------------------
  // Gap decision
  // ---------------------------------------------------------------------

  datatype Notation = Increase | Decrease | Unspecified

  /** The improvement notation, compared case-insensitively. */
  function Classify(code: string): Notation {
    var lower := Text.ToLower(code);
    if lower == IncreaseCode then Increase
    else if lower == DecreaseCode then Decrease
    else Unspecified
  }

  /** The gap test on the lower-cased first notation code. */
  predicate IsGap(code: string, proportion: int32) {
    var lower := Text.ToLower(code);
    (lower == IncreaseCode && proportion < 1) || (lower == DecreaseCode && proportion > 0)
  }

  /** "increase" gaps below 1, "decrease" gaps above 0, any other notation never gaps. */
  lemma GapByNotation(code: string, proportion: int32)
    ensures IsGap(code, proportion) <==>
            (Classify(code) == Increase && proportion < 1) || (Classify(code) == Decrease && proportion > 0)
    ensures Classify(code) == Unspecified ==> !IsGap(code, proportion)
  {
  }

  /** Lower-casing the notation first changes nothing. */
  lemma GapIgnoresCase(code: string, proportion: int32)
    ensures IsGap(Text.ToLower(code), proportion) == IsGap(code, proportion)
    ensures Classify(Text.ToLower(code)) == Classify(code)
  {
    Text.ToLowerIdempotent(code);
  }

  /**
   * The decision made for one measure and its report: only when the report
   * has a non-empty group and the measure has scoring, and then it fails when
   * the improvement notation has no first code.
   */
  function GapDecision(measure: Measure, groups: seq<Group>): (r: Result<bool>)
    ensures r.Ok? && r.value ==> HasGroup(groups) && HasScoring(measure)
    ensures r.Err? <==> HasGroup(groups) && HasScoring(measure) && FirstCode(measure.improvementNotation).None?
    ensures r.Err? ==> r.error == MissingImprovementNotationCode
  {
    if HasGroup(groups) && HasScoring(measure) then
      match FirstCode(measure.improvementNotation)
      case None => Err(MissingImprovementNotationCode)
      case Some(code) =>
        Ok(IsGap(code, ScoreProportion(measure.scoring, Count(groups, NumeratorCode), Count(groups, DenominatorCode))))
    else Ok(false)
  }

  /** A proportion measure's scoring has content, so it counts as having scoring. */
  lemma ProportionHasScoring(scoring: CodeableConcept)
    requires HasProportionCoding(scoring)
    ensures HasCoding(scoring) && ConceptHasContent(scoring)
  {
    NumeratorIsNotDenominator();
    var i :| 0 <= i < |scoring.codings| && scoring.codings[i].code == Some(ProportionCode);
    assert CodingHasContent(scoring.codings[i]);
  }

  /** With a non-negative numerator and a positive denominator the proportion is 0 exactly below 100%. */
  lemma ProportionOfNonNegative(scoring: CodeableConcept, numerator: int32, denominator: int32)
    requires HasProportionCoding(scoring) && denominator > 0 && numerator >= 0
    ensures ScoreProportion(scoring, numerator, denominator) >= 0
    ensures ScoreProportion(scoring, numerator, denominator) == 0 <==> numerator < denominator
  {
    JavaDivNonNegative(numerator, denominator);
  }

  /** Once the decision is made, it is the gap test on the first notation code and the proportion. */
  lemma GapDecisionValue(measure: Measure, groups: seq<Group>)
    requires HasGroup(groups) && HasScoring(measure)
    requires FirstCode(measure.improvementNotation).Some?
    ensures GapDecision(measure, groups).Ok?
    ensures GapDecision(measure, groups).value
            == IsGap(FirstCode(measure.improvementNotation).value,
                     ScoreProportion(measure.scoring, Count(groups, NumeratorCode), Count(groups, DenominatorCode)))
  {
  }

  /**
   * For a proportion measure with a positive denominator and a non-negative
   * numerator, truncation turns every rate below 100% into 0: "increase" gaps
   * exactly when the numerator is below the denominator, "decrease" exactly
   * when it is not.
   */
  lemma GapForNonNegativeCounts(measure: Measure, groups: seq<Group>)
    requires HasGroup(groups) && HasProportionCoding(measure.scoring)
    requires FirstCode(measure.improvementNotation).Some?
    requires Count(groups, DenominatorCode) > 0 && Count(groups, NumeratorCode) >= 0
    ensures var numerator, denominator := Count(groups, NumeratorCode), Count(groups, DenominatorCode);
            var notation := Classify(FirstCode(measure.improvementNotation).value);
            GapDecision(measure, groups) == Ok(
              if notation == Increase then numerator < denominator
              else if notation == Decrease then numerator >= denominator
              else false)
  {
    var numerator, denominator := Count(groups, NumeratorCode), Count(groups, DenominatorCode);
    var code := FirstCode(measure.improvementNotation).value;
    ProportionHasScoring(measure.scoring);
    GapDecisionValue(measure, groups);
    ProportionOfNonNegative(measure.scoring, numerator, denominator);
    GapByNotation(code, ScoreProportion(measure.scoring, numerator, denominator));
  }

  /** Without a proportion to compute, "increase" always gaps and "decrease" never does. */
  lemma GapWithoutProportion(measure: Measure, groups: seq<Group>)
    requires HasGroup(groups) && HasScoring(measure)
    requires FirstCode(measure.improvementNotation).Some?
    requires Count(groups, DenominatorCode) == 0 || !HasProportionCoding(measure.scoring)
    ensures var notation := Classify(FirstCode(measure.improvementNotation).value);
            GapDecision(measure, groups) == Ok(notation == Increase)
  {
  }

  function ConceptOf(code: string): CodeableConcept {
    CodeableConcept([Coding(None, Some(code))], None)
  }

  lemma SingleCodingMatches(c: string, count: Option<int32>, code: string)
    ensures CodingMatches(ConceptOf(c).codings, count, code) == if c == code && count.Some? then [count.value] else []
  {
    assert ConceptOf(c).codings[..0] == [];
  }

  lemma OneGroupOfTwo(p0: Population, p1: Population, code: string)
    ensures GroupsMatches([Group([p0, p1], false)], code)
            == CodingMatches(p0.code.codings, p0.count, code) + CodingMatches(p1.code.codings, p1.count, code)
  {
    var ps := [p0, p1];
    assert ps[..|ps| - 1] == [p0] && [p0][..0] == [];
    assert PopulationsMatches([p0], code) == CodingMatches(p0.code.codings, p0.count, code);
    assert PopulationsMatches(ps, code) == PopulationsMatches([p0], code) + CodingMatches(p1.code.codings, p1.count, code);
    assert [Group(ps, false)][..0] == [];
  }

  /** The counts read from one group with a numerator population of 3 and a denominator population of 10. */
  lemma ThreeOfTenCounts()
    ensures var groups := [Group([Population(ConceptOf(NumeratorCode), Some(3)),
                                  Population(ConceptOf(DenominatorCode), Some(10))], false)];
            Count(groups, NumeratorCode) == 3 && Count(groups, DenominatorCode) == 10
  {
    var p0, p1 := Population(ConceptOf(NumeratorCode), Some(3)), Population(ConceptOf(DenominatorCode), Some(10));
    assert DenominatorCode != NumeratorCode by { assert DenominatorCode[0] != NumeratorCode[0]; }
    SingleCodingMatches(NumeratorCode, Some(3), NumeratorCode);
    SingleCodingMatches(DenominatorCode, Some(10), NumeratorCode);
    SingleCodingMatches(NumeratorCode, Some(3), DenominatorCode);
    SingleCodingMatches(DenominatorCode, Some(10), DenominatorCode);
    OneGroupOfTwo(p0, p1, NumeratorCode);
    OneGroupOfTwo(p0, p1, DenominatorCode);
  }

  /** A proportion measure with "increase" whose report counts 3 of 10 has a gap: 3 / 10 truncates to 0. */
  lemma ThreeOfTenIncreaseIsGap()
    ensures var groups := [Group([Population(ConceptOf(NumeratorCode), Some(3)),
                                  Population(ConceptOf(DenominatorCode), Some(10))], false)];
            var measure := Measure("m", None, ConceptOf(ProportionCode), ConceptOf(IncreaseCode), []);
            GapDecision(measure, groups) == Ok(true)
  {
    var groups := [Group([Population(ConceptOf(NumeratorCode), Some(3)),
                          Population(ConceptOf(DenominatorCode), Some(10))], false)];
    var measure := Measure("m", None, ConceptOf(ProportionCode), ConceptOf(IncreaseCode), []);
    ThreeOfTenCounts();
    assert GroupHasContent(groups[0]);
    assert measure.scoring.codings[0].code == Some(ProportionCode);
    Text.ToLowerKeepsLower(IncreaseCode);
    GapForNonNegativeCounts(measure, groups);
  }
}
