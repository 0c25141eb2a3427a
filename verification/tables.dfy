/** The character tables of the formal (anti-fraud) numeral script. */
module Tables {

  /** Digit characters and their values. */
  const DigitUpper: map<char, real> := map[
    '零' := 0.0, '壹' := 1.0, '贰' := 2.0, '叁' := 3.0, '肆' := 4.0,
    '伍' := 5.0, '陆' := 6.0, '柒' := 7.0, '捌' := 8.0, '玖' := 9.0]

  /** Carry (unit) characters and their values; the fraction units 角 and
      分 are carries too, worth a tenth and a hundredth. */
  const UnitUpper: map<char, real> := map[
    '分' := 0.01, '角' := 0.1, '拾' := 10.0, '佰' := 100.0,
    '仟' := 1000.0, '万' := 10000.0, '亿' := 100000000.0]

  /** The merged table `dict(**UNIT_UPPER, **DIGIT_UPPER)`, written out
      (MergedTable shows it is that merge). */
  const Units: map<char, real> := map[
    '分' := 0.01, '角' := 0.1, '拾' := 10.0, '佰' := 100.0,
    '仟' := 1000.0, '万' := 10000.0, '亿' := 100000000.0,
    '零' := 0.0, '壹' := 1.0, '贰' := 2.0, '叁' := 3.0, '肆' := 4.0,
    '伍' := 5.0, '陆' := 6.0, '柒' := 7.0, '捌' := 8.0, '玖' := 9.0]

  /** The two tables share no character, and `Units` is their merge. */
  lemma MergedTable()
    ensures UnitUpper.Keys !! DigitUpper.Keys
    ensures Units == UnitUpper + DigitUpper
  {
    TablesDisjoint();
    MergedKeys();
    MergedCarries();
    MergedDigits();
  }

  lemma TablesDisjoint()
    ensures UnitUpper.Keys !! DigitUpper.Keys
  {
  }

  lemma MergedKeys()
    ensures Units.Keys == UnitUpper.Keys + DigitUpper.Keys
  {
  }

  lemma MergedCarries()
    ensures forall c :: c in UnitUpper ==> c in Units && Units[c] == UnitUpper[c]
  {
  }

  lemma MergedDigits()
    ensures forall c :: c in DigitUpper ==> c in Units && Units[c] == DigitUpper[c]
  {
  }

  /** The keys of `Units` sorted by value: the token's `units` list. */
  const SortedUnits: seq<char> :=
    ['零', '分', '角', '壹', '贰', '叁', '肆', '伍', '陆', '柒', '捌', '玖',
     '拾', '佰', '仟', '万', '亿']

  /** From position `i` on, every neighbouring pair of `s` is in `m` and
      strictly increasing in value. */
  predicate IncreasingFrom(s: seq<char>, m: map<char, real>, i: nat)
    decreases |s| - i
  {
    i + 1 >= |s| ||
    (s[i] in m && s[i + 1] in m && m[s[i]] < m[s[i + 1]] && IncreasingFrom(s, m, i + 1))
  }

  lemma {:induction false} IncreasingPairwise(s: seq<char>, m: map<char, real>, from: nat, i: nat, j: nat)
    requires IncreasingFrom(s, m, from)
    requires from <= i < j < |s|
    ensures s[i] in m && s[j] in m && m[s[i]] < m[s[j]]
    decreases j - from
  {
    if from < i {
      IncreasingPairwise(s, m, from + 1, i, j);
    } else if i + 1 < j {
      IncreasingPairwise(s, m, from + 1, i + 1, j);
    }
  }

  lemma SortedUnitsNeighbours()
    ensures IncreasingFrom(SortedUnits, Units, 0)
  {
    // one unfolding per position, from the top of the alphabet down
    assert IncreasingFrom(SortedUnits, Units, 16);
    assert IncreasingFrom(SortedUnits, Units, 15);
    assert IncreasingFrom(SortedUnits, Units, 14);
    assert IncreasingFrom(SortedUnits, Units, 13);
    assert IncreasingFrom(SortedUnits, Units, 12);
    assert IncreasingFrom(SortedUnits, Units, 11);
    assert IncreasingFrom(SortedUnits, Units, 10);
    assert IncreasingFrom(SortedUnits, Units, 9);
    assert IncreasingFrom(SortedUnits, Units, 8);
    assert IncreasingFrom(SortedUnits, Units, 7);
    assert IncreasingFrom(SortedUnits, Units, 6);
    assert IncreasingFrom(SortedUnits, Units, 5);
    assert IncreasingFrom(SortedUnits, Units, 4);
    assert IncreasingFrom(SortedUnits, Units, 3);
    assert IncreasingFrom(SortedUnits, Units, 2);
    assert IncreasingFrom(SortedUnits, Units, 1);
  }

  /** `SortedUnits` is in strictly increasing order of value. */
  lemma SortedUnitsIsSorted()
    ensures forall i, j :: 0 <= i < j < |SortedUnits| ==>
      SortedUnits[i] in Units && SortedUnits[j] in Units && Units[SortedUnits[i]] < Units[SortedUnits[j]]
  {
    SortedUnitsNeighbours();
    forall i, j | 0 <= i < j < |SortedUnits|
      ensures SortedUnits[i] in Units && SortedUnits[j] in Units && Units[SortedUnits[i]] < Units[SortedUnits[j]]
    {
      IncreasingPairwise(SortedUnits, Units, 0, i, j);
    }
  }

  /** `SortedUnits` lists exactly the keys of `Units`. */
  lemma SortedUnitsAreTheKeys()
    ensures forall c :: c in SortedUnits <==> c in Units
  {
  }
}
