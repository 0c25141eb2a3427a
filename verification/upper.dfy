/** One character of a formal amount, with the order the grouping pass uses
    to compare carries (the source's `RMBUpper`). */
module Upper {
  import opened Outcome
  import opened Seqs
  import opened Tables

  /** Ranks agree with values: the earlier of two characters in
      `SortedUnits` is the one of smaller value. */
  lemma RankOrder(a: char, b: char)
    requires a in Units && b in Units
    ensures a in SortedUnits && b in SortedUnits
    ensures FirstIndex(SortedUnits, a) < FirstIndex(SortedUnits, b) <==> Units[a] < Units[b]
    ensures FirstIndex(SortedUnits, a) > FirstIndex(SortedUnits, b) <==> Units[a] > Units[b]
  {
    RankBelow(a, b);
    RankBelow(b, a);
  }

  /** One direction of `RankOrder`: a smaller rank is a smaller value. */
  lemma RankBelow(a: char, b: char)
    requires a in Units && b in Units
    ensures a in SortedUnits && b in SortedUnits
    ensures FirstIndex(SortedUnits, a) < FirstIndex(SortedUnits, b) <==> Units[a] < Units[b]
  {
    SortedUnitsAreTheKeys();
    SortedUnitsIsSorted();
    var i, j := FirstIndex(SortedUnits, a), FirstIndex(SortedUnits, b);
    assert SortedUnits[i] == a && SortedUnits[j] == b;
  }

  /** A token wraps one character; characters outside the tables are
      accepted and carry no number. */
  datatype RmbUpper = RmbUpper(value: char) {

    /** `self.number`: the character's value in the merged table, if any. */
    function Number(): Option<real>
    {
      if value in Units then Some(Units[value]) else None
    }

    /** `self > other`: false when `other` is outside the alphabet; fails when
        only `self` is; otherwise compares positions in the sorted alphabet. */
    function Gt(other: RmbUpper): (r: Result<bool>)
      ensures other.value !in Units ==> r == Ok(false)
      ensures other.value in Units && value !in Units ==> r == Err(UnknownUnit)
      ensures other.value in Units && value in Units ==> r == Ok(Units[value] > Units[other.value])
    {
      SortedUnitsAreTheKeys();
      if other.value !in SortedUnits then Ok(false)
      else if value !in SortedUnits then Err(UnknownUnit)
      else
        RankOrder(value, other.value);
        Ok(FirstIndex(SortedUnits, value) > FirstIndex(SortedUnits, other.value))
    }

    /** `self < other`, the mirror of `Gt`. */
    function Lt(other: RmbUpper): (r: Result<bool>)
      ensures other.value !in Units ==> r == Ok(false)
      ensures other.value in Units && value !in Units ==> r == Err(UnknownUnit)
      ensures other.value in Units && value in Units ==> r == Ok(Units[value] < Units[other.value])
    {
      SortedUnitsAreTheKeys();
      if other.value !in SortedUnits then Ok(false)
      else if value !in SortedUnits then Err(UnknownUnit)
      else
        RankOrder(value, other.value);
        Ok(FirstIndex(SortedUnits, value) < FirstIndex(SortedUnits, other.value))
    }

    /** `self == other`: two tokens are equal exactly when they wrap the
        same character. */
    function Equal(other: RmbUpper): (b: bool)
      ensures b <==> this == other
    {
      value == other.value
    }
  }

  /** `RMBUpper(unit)`: fails unless `unit` is exactly one character; any single
      character is accepted, and one outside the tables has no number. */
  function New(unit: string): (r: Result<RmbUpper>)
    ensures r.Ok? <==> |unit| == 1
    ensures r.Err? ==> r.error == InvalidParams
    ensures r.Ok? ==> r.value.value == unit[0]
    ensures r.Ok? ==> (r.value.Number().Some? <==> unit[0] in Units)
  {
    if |unit| != 1 then Err(InvalidParams) else Ok(RmbUpper(unit[0]))
  }

  /** The examples of the token's documentation: 佰 < 仟, 叁 > 贰, 伍 == 伍. */
  lemma DocumentedComparisons()
    ensures RmbUpper('佰').Lt(RmbUpper('仟')) == Ok(true)
    ensures RmbUpper('叁').Gt(RmbUpper('贰')) == Ok(true)
    ensures RmbUpper('伍').Equal(RmbUpper('伍'))
  {
    assert Units['佰'] == 100.0 && Units['仟'] == 1000.0;
    assert Units['叁'] == 3.0 && Units['贰'] == 2.0;
  }

  /** Between two members of the alphabet exactly one of `<`, `>` and `==`
      holds. */
  lemma Trichotomy(a: RmbUpper, b: RmbUpper)
    requires a.value in Units && b.value in Units
    ensures a.Lt(b).Ok? && a.Gt(b).Ok?
    ensures a.Lt(b).value || a.Gt(b).value || a.Equal(b)
    ensures !(a.Lt(b).value && a.Gt(b).value)
    ensures a.Equal(b) ==> !a.Lt(b).value && !a.Gt(b).value
  {
    MergedTable();
  }
}
