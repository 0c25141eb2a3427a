/** The fraction part: the characters after 元, read left to right; every
    carry multiplies the most recent digit seen before it. */
module Decimal {
  import opened Outcome
  import opened Tables

  /** The value of the last digit character of `s`, if there is one: the
      decoder's `mul` after reading `s`. */
  function LastDigit(s: string): Option<real>
  {
    if s == [] then None
    else if s[|s| - 1] in DigitUpper then Some(DigitUpper[s[|s| - 1]])
    else LastDigit(s[..|s| - 1])
  }

  /** `LastDigit` is None exactly when `s` has no digit. */
  lemma {:induction false} LastDigitNone(s: string)
    ensures LastDigit(s).None? <==> forall i :: 0 <= i < |s| ==> s[i] !in DigitUpper
  {
    if s != [] && s[|s| - 1] !in DigitUpper {
      var init := s[..|s| - 1];
      LastDigitNone(init);
      assert forall i :: 0 <= i < |s| - 1 ==> init[i] == s[i];
    }
  }

  /** Position `i` of `s` holds a digit and no later position does. */
  predicate LastDigitAt(s: string, i: nat)
  {
    i < |s| && s[i] in DigitUpper && forall k :: i < k < |s| ==> s[k] !in DigitUpper
  }

  /** Otherwise `LastDigit` is the value of a digit of `s` with no digit
      after it. */
  lemma {:induction false} LastDigitIsLast(s: string)
    requires LastDigit(s).Some?
    ensures exists i: nat :: LastDigitAt(s, i) && LastDigit(s).value == DigitUpper[s[i]]
  {
    var n := |s| - 1;
    if s[n] in DigitUpper {
      assert LastDigitAt(s, n);
    } else {
      var init := s[..n];
      LastDigitIsLast(init);
      var i: nat :| LastDigitAt(init, i) && LastDigit(init).value == DigitUpper[init[i]];
      assert init[i] == s[i];
      assert LastDigitAt(s, i) by {
        forall k | i < k < |s| ensures s[k] !in DigitUpper {
          if k < n { assert init[k] == s[k]; }
        }
      }
    }
  }

  /** A carry at position `i` with no digit before it: the decoder would
      multiply `None`. */
  predicate OrphanCarry(s: string, i: nat)
    requires i < |s|
  {
    s[i] in UnitUpper && LastDigit(s[..i]).None?
  }

  /** Some carry of `s` has no digit before it. */
  predicate HasOrphanCarry(s: string)
  {
    exists i :: 0 <= i < |s| && OrphanCarry(s, i)
  }

  /** What character `c` adds after the digit `mul`: a carry times that
      digit; a digit or any other character adds 0. */
  function CarryTerm(c: char, mul: Option<real>): real
  {
    if c in UnitUpper && mul.Some? then mul.value * UnitUpper[c] else 0.0
  }

  /** A digit is not a carry, so it adds nothing of its own. */
  lemma DigitAddsNothing(c: char, mul: Option<real>)
    requires c in DigitUpper
    ensures c !in UnitUpper && CarryTerm(c, mul) == 0.0
  {
    MergedTable();
  }

  /** What the character at position `i` adds. */
  function Term(s: string, i: nat): real
    requires i < |s|
  {
    CarryTerm(s[i], LastDigit(s[..i]))
  }

  /** A term depends only on the characters up to its own. */
  lemma TermPrefix(s: string, t: string, i: nat)
    requires i < |s|
    ensures Term(s + t, i) == Term(s, i)
  {
    assert (s + t)[..i] == s[..i];
  }

  /** The terms of the first `n` characters, added left to right. */
  function FractionSum(s: string, n: nat): real
    requires n <= |s|
  {
    if n == 0 then 0.0 else FractionSum(s, n - 1) + Term(s, n - 1)
  }

  /** `_convert_decimal`: no fraction part cannot be iterated, an orphan
      carry fails on `None * carry`, and otherwise the terms add up. */
  function DecimalValue(fraction: Option<string>): (r: Result<real>)
    ensures r.Err? ==> r.error in {NotIterable, NoneArithmetic}
    ensures r == Err(NotIterable) <==> fraction.None?
    ensures r == Err(NoneArithmetic) <==> fraction.Some? && HasOrphanCarry(fraction.value)
  {
    match fraction
    case None => Err(NotIterable)
    case Some(s) => if HasOrphanCarry(s) then Err(NoneArithmetic) else Ok(FractionSum(s, |s|))
  }

  /** The character loop of `_convert_decimal`. */
  method ConvertDecimal(amount: Option<string>) returns (r: Result<real>)
    ensures r == DecimalValue(amount)
  {
    if amount.None? {
      return Err(NotIterable);
    }
    var s := amount.value;
    var result := 0.0;
    var mul: Option<real> := None;
    for i := 0 to |s|
      invariant forall j :: 0 <= j < i ==> !OrphanCarry(s, j)
      invariant result == FractionSum(s, i)
      invariant mul == LastDigit(s[..i])
    {
      var unit := s[i];
      LastDigitStep(s, i);
      assert FractionSum(s, i + 1) == result + CarryTerm(unit, mul);
      if unit in DigitUpper {
        DigitAddsNothing(unit, mul);
        mul := Some(DigitUpper[unit]);
      } else if unit in UnitUpper {
        var carry := UnitUpper[unit];
        if mul.None? {
          assert OrphanCarry(s, i);
          return Err(NoneArithmetic);
        }
        result := result + mul.value * carry;
      }
    }
    return Ok(result);
  }

  /** The latest digit after position `i`. */
  lemma LastDigitStep(s: string, i: nat)
    requires i < |s|
    ensures LastDigit(s[..i + 1]) == if s[i] in DigitUpper then Some(DigitUpper[s[i]]) else LastDigit(s[..i])
  {
    assert s[..i + 1][..i] == s[..i];
  }

  /** Terms depend only on what comes before them, so appending characters
      leaves the earlier terms alone. */
  lemma {:induction false} FractionSumPrefix(s: string, t: string, n: nat)
    requires n <= |s|
    ensures FractionSum(s + t, n) == FractionSum(s, n)
  {
    if n > 0 {
      FractionSumPrefix(s, t, n - 1);
      TermPrefix(s, t, n - 1);
    }
  }

  /** A character appended to `s` makes an orphan carry exactly when it is a
      carry and `s` has no digit. */
  lemma OrphanAppend(s: string, c: char)
    ensures HasOrphanCarry(s + [c]) <==> HasOrphanCarry(s) || (c in UnitUpper && LastDigit(s).None?)
  {
    var sc := s + [c];
    assert sc[..|s|] == s;
    forall i | 0 <= i < |s|
      ensures OrphanCarry(sc, i) == OrphanCarry(s, i)
    {
      assert sc[..i] == s[..i];
    }
    if c in UnitUpper && LastDigit(s).None? {
      assert OrphanCarry(sc, |s|);
    }
  }

  /** Reading one more character, as the decoder's loop does: a failure
      stays a failure, a carry with no digit before it fails, and otherwise
      the character's term is added. */
  lemma DecimalAppend(s: string, c: char)
    ensures DecimalValue(Some(s)).Err? ==> DecimalValue(Some(s + [c])) == Err(NoneArithmetic)
    ensures DecimalValue(Some(s)).Ok? && c in UnitUpper && LastDigit(s).None? ==>
      DecimalValue(Some(s + [c])) == Err(NoneArithmetic)
    ensures DecimalValue(Some(s)).Ok? && !(c in UnitUpper && LastDigit(s).None?) ==>
      DecimalValue(Some(s + [c])).Ok? &&
      DecimalValue(Some(s + [c])).value == DecimalValue(Some(s)).value + CarryTerm(c, LastDigit(s))
  {
    OrphanAppend(s, c);
    var sc := s + [c];
    if DecimalValue(Some(s)).Err? || (c in UnitUpper && LastDigit(s).None?) {
      assert HasOrphanCarry(sc);
    } else {
      assert !HasOrphanCarry(s) && !HasOrphanCarry(sc);
      var v := FractionSum(s, |s|);
      assert DecimalValue(Some(s)) == Ok(v);
      FractionSumPrefix(s, [c], |s|);
      assert sc[..|s|] == s;
      assert Term(sc, |s|) == CarryTerm(c, LastDigit(s));
      assert FractionSum(sc, |s| + 1) == v + CarryTerm(c, LastDigit(s));
      assert DecimalValue(Some(sc)) == Ok(FractionSum(sc, |s| + 1));
    }
  }

  /** Appending a character that is not a carry (a digit, 整, anything
      else) changes neither the value nor whether the fraction fails. */
  lemma AppendNonCarry(s: string, c: char)
    requires c !in UnitUpper
    ensures DecimalValue(Some(s + [c])) == DecimalValue(Some(s))
  {
    DecimalAppend(s, c);
  }

  /** A carry before any digit fails, as `None * carry` does. */
  lemma LeadingCarryFails(c: char, rest: string)
    requires c in UnitUpper
    ensures DecimalValue(Some([c] + rest)) == Err(NoneArithmetic)
  {
    assert OrphanCarry([c] + rest, 0);
  }

  /** No fraction at all, 整 alone, or an empty fraction are worth 0. */
  lemma NoFractionIsZero()
    ensures DecimalValue(Some("")) == Ok(0.0)
    ensures DecimalValue(Some("整")) == Ok(0.0)
  {
    AppendNonCarry("", '整');
  }

  /** d1角d2分 is worth d1 tenths and d2 hundredths, as in 叁角伍分 = 0.35. */
  lemma JiaoFen(d1: char, d2: char)
    requires d1 in DigitUpper && d2 in DigitUpper
    ensures DecimalValue(Some([d1, '角', d2, '分'])) ==
      Ok(DigitUpper[d1] * 0.1 + DigitUpper[d2] * 0.01)
  {
    DigitAddsNothing(d1, None);
    DigitAddsNothing(d2, None);
    assert DecimalValue(Some([])) == Ok(0.0);
    assert [d1] == [] + [d1];
    AppendNonCarry([], d1);
    assert LastDigit([d1]) == Some(DigitUpper[d1]);
    DecimalAppend([d1], '角');
    assert [d1, '角'] == [d1] + ['角'];
    AppendNonCarry([d1, '角'], d2);
    assert [d1, '角', d2] == [d1, '角'] + [d2];
    assert LastDigit([d1, '角', d2]) == Some(DigitUpper[d2]);
    DecimalAppend([d1, '角', d2], '分');
    assert [d1, '角', d2, '分'] == [d1, '角', d2] + ['分'];
  }

  /** After a carry the decoder keeps the last digit: 伍角分 is 0.5 + 0.05. */
  lemma DigitReused()
    ensures DecimalValue(Some("伍角分")) == Ok(0.55)
  {
    var s := "伍角分";
    assert s[..0] == [] && s[..1] == ['伍'] && s[..2] == ['伍', '角'];
    assert LastDigit(s[..1]) == Some(5.0);
    assert LastDigit(s[..2]) == Some(5.0);
    assert !OrphanCarry(s, 0) && !OrphanCarry(s, 1) && !OrphanCarry(s, 2);
    assert FractionSum(s, 3) == 0.0 + 0.5 + 0.05;
  }
}
