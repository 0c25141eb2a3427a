/** `Traditional`: a formal amount string to its number. The string is split
    at 元 into the integer part and the fraction; every 零 is dropped from
    the integer part; the two parts are decoded and added. */
module Traditional {
  import opened Outcome
  import opened Seqs
  import opened Upper
  import opened Grouping
  import opened Reduction
  import opened Decimal

  /** `s` holds 元 at two different positions. */
  predicate TwoYuan(s: string)
  {
    exists i, j :: 0 <= i < j < |s| && s[i] == '元' && s[j] == '元'
  }

  /** `positive_number, fraction = amount.split("元")` when 元 occurs, the
      whole string and no fraction otherwise. Splitting at two or more 元
      gives more parts than the two names take. */
  function SplitYuan(amount: string): (r: Result<(string, Option<string>)>)
    ensures r.Err? <==> TwoYuan(amount)
    ensures r.Err? ==> r.error == TooManyYuan
    ensures '元' !in amount ==> r == Ok((amount, None))
    ensures r.Ok? && r.value.1.Some? ==>
      amount == r.value.0 + "元" + r.value.1.value &&
      '元' !in r.value.0 && '元' !in r.value.1.value
  {
    if '元' !in amount then Ok((amount, None))
    else
      var i := FirstIndex(amount, '元');
      FirstIndexIsFirst(amount, '元');
      var integer, fraction := amount[..i], amount[i + 1..];
      assert amount == integer + "元" + fraction;
      if '元' in fraction then
        var j :| 0 <= j < |fraction| && fraction[j] == '元';
        assert amount[i + 1 + j] == '元';
        Err(TooManyYuan)
      else
        assert !TwoYuan(amount) by {
          forall a, b | 0 <= a < b < |amount| && amount[a] == '元'
            ensures amount[b] != '元'
          {
            assert a >= i;
            assert b > i ==> amount[b] == fraction[b - i - 1];
          }
        }
        Ok((integer, Some(fraction)))
  }

  /** `s.replace("零", "")`. */
  function RemoveZeros(s: string): string
    decreases |s|
  {
    if s == [] then []
    else (if s[0] == '零' then [] else [s[0]]) + RemoveZeros(s[1..])
  }

  /** Dropping 零 leaves no 零 and keeps every other character as often as
      it occurred. */
  lemma {:induction false} RemoveZerosKeeps(s: string)
    ensures '零' !in RemoveZeros(s)
    ensures forall c :: c != '零' ==> multiset(RemoveZeros(s))[c] == multiset(s)[c]
    decreases |s|
  {
    if s != [] {
      RemoveZerosKeeps(s[1..]);
      assert s == [s[0]] + s[1..];
    }
  }

  /** A string without 零 is left as it is. */
  lemma {:induction false} NoZeroUnchanged(s: string)
    requires '零' !in s
    ensures RemoveZeros(s) == s
    decreases |s|
  {
    if s != [] {
      assert s[0] != '零' && '零' !in s[1..];
      NoZeroUnchanged(s[1..]);
      assert s == [s[0]] + s[1..];
    }
  }

  /** Removing 零 from a concatenation removes it from each part. */
  lemma {:induction false} RemoveZerosAppend(a: string, b: string)
    ensures RemoveZeros(a + b) == RemoveZeros(a) + RemoveZeros(b)
    decreases |a|
  {
    if a != [] {
      assert (a + b)[1..] == a[1..] + b;
      RemoveZerosAppend(a[1..], b);
    } else {
      assert a + b == b;
    }
  }

  /** `[RMBUpper(unit) for unit in amount]`: one token per character. */
  function Tokens(amount: string): (r: seq<RmbUpper>)
    ensures |r| == |amount|
    ensures forall i :: 0 <= i < |amount| ==> New([amount[i]]) == Ok(r[i])
  {
    seq(|amount|, i requires 0 <= i < |amount| => RmbUpper(amount[i]))
  }

  /** `_convert_integer`: tokens, groups, group values, the anchor loop. */
  function IntegerValue(amount: string): (r: Result<real>)
    ensures r.Err? ==> r.error in {UnknownUnit, NoneArithmetic, EmptyInteger, Diverges}
    ensures r == Err(EmptyInteger) <==> amount == []
  {
    match GroupAll(Tokens(amount))
    case Err(e) => Err(e)
    case Ok(groups) =>
      match Evaluate(groups)
      case Err(e) => Err(e)
      case Ok(values) => Reduce(values)
  }

  /** The integer decoder as the source runs it: the token list, then the
      grouping, evaluation and anchor loops. */
  method ConvertInteger(amount: string) returns (r: Result<real>)
    ensures r == IntegerValue(amount)
  {
    var instances: seq<RmbUpper> := [];
    for i := 0 to |amount|
      invariant instances == Tokens(amount)[..i]
    {
      var token := New([amount[i]]);
      instances := instances + [token.value];
    }
    assert instances == Tokens(amount);
    var grouped := GroupTokens(instances);
    if grouped.Err? {
      return Err(grouped.error);
    }
    var evaluated := EvaluateGroups(grouped.value);
    if evaluated.Err? {
      return Err(evaluated.error);
    }
    r := ReduceGroups(evaluated.value);
  }

  /** `to_number`: split at 元, drop 零 from the integer part, decode the
      integer part and then the fraction, and add them. It fails on two or
      more 元; otherwise the integer part fails first, with `EmptyInteger`
      exactly when nothing is left of it once 零 is dropped; a string with
      no 元 that gets past the integer part has no fraction to iterate. A
      success therefore needs exactly one 元. */
  function ToNumber(amount: string): (r: Result<real>)
    ensures TwoYuan(amount) ==> r == Err(TooManyYuan)
    ensures SplitYuan(amount).Ok? ==>
      (r == Err(EmptyInteger) <==> RemoveZeros(SplitYuan(amount).value.0) == [])
    ensures '元' !in amount ==> r.Err?
    ensures r.Ok? ==> '元' in amount && !TwoYuan(amount)
  {
    var split := SplitYuan(amount);
    if split.Err? then Err(split.error)
    else
      var integer := IntegerValue(RemoveZeros(split.value.0));
      if integer.Err? then Err(integer.error)
      else
        var decimal := DecimalValue(split.value.1);
        if decimal.Err? then Err(decimal.error)
        else Ok(integer.value + decimal.value)
  }

  lemma ToNumberOk(amount: string)
    requires SplitYuan(amount).Ok?
    requires IntegerValue(RemoveZeros(SplitYuan(amount).value.0)).Ok?
    requires DecimalValue(SplitYuan(amount).value.1).Ok?
    ensures ToNumber(amount).Ok? && ToNumber(amount).value == IntegerValue(RemoveZeros(SplitYuan(amount).value.0)).value + DecimalValue(SplitYuan(amount).value.1).value
  {
  }

  /** `to_number` as the source runs it, calling the two decoding loops. */
  method ConvertToNumber(amount: string) returns (r: Result<real>)
    ensures r == ToNumber(amount)
  {
    var split := SplitYuan(amount);
    if split.Err? {
      return Err(split.error);
    }
    var integer := ConvertInteger(RemoveZeros(split.value.0));
    if integer.Err? {
      return Err(integer.error);
    }
    var decimal := ConvertDecimal(split.value.1);
    if decimal.Err? {
      return Err(decimal.error);
    }
    ToNumberOk(amount);
    r := Ok(integer.value + decimal.value);
    assert r.value == ToNumber(amount).value;
  }

  /** Splitting at the first 元: the part before it is the integer part, and
      the rest is the fraction unless it holds another 元. */
  lemma SplitAtFirst(a: string, b: string)
    requires '元' !in a
    ensures SplitYuan(a + "元" + b) == if '元' in b then Err(TooManyYuan) else Ok((a, Some(b)))
  {
    var s := a + "元" + b;
    assert s[|a|] == '元';
    FirstIndexIsFirst(s, '元');
    var i := FirstIndex(s, '元');
    assert i == |a|;
    assert s[..i] == a && s[i + 1..] == b;
  }

  /** 零元整, zero yuan, has nothing left of its integer part. */
  lemma ZeroYuanFails()
    ensures ToNumber("零元整") == Err(EmptyInteger)
  {
    SplitAtFirst("零", "整");
    assert "零元整" == "零" + "元" + "整";
    assert RemoveZeros("零") == [];
  }

  /** Two amounts whose splits agree up to 零 in the integer part decode
      alike. */
  lemma SameParts(s: string, t: string)
    requires SplitYuan(s).Err? <==> SplitYuan(t).Err?
    requires SplitYuan(s).Ok? ==>
      RemoveZeros(SplitYuan(s).value.0) == RemoveZeros(SplitYuan(t).value.0) &&
      SplitYuan(s).value.1 == SplitYuan(t).value.1
    ensures ToNumber(s) == ToNumber(t)
  {
    if SplitYuan(s).Ok? {
      var integer := IntegerValue(RemoveZeros(SplitYuan(s).value.0));
      var decimal := DecimalValue(SplitYuan(s).value.1);
      if integer.Ok? && decimal.Ok? {
        ToNumberOk(s);
        ToNumberOk(t);
        assert ToNumber(s).value == ToNumber(t).value;
      } else {
        assert ToNumber(s).Err? && ToNumber(t).Err?;
        assert ToNumber(s).error == ToNumber(t).error;
      }
    } else {
      assert ToNumber(s).error == ToNumber(t).error;
    }
  }

  /** A 零 inserted anywhere before the 元 changes nothing. */
  lemma ZeroInsensitive(s: string, k: nat)
    requires k <= |s| && '元' !in s[..k]
    ensures ToNumber(s[..k] + "零" + s[k..]) == ToNumber(s)
  {
    var t := s[..k] + "零" + s[k..];
    if '元' !in s {
      assert '元' !in t by {
        forall n | 0 <= n < |t| ensures t[n] != '元' {
          if n > k { assert t[n] == s[n - 1]; }
        }
      }
      ZeroDropped(s, k, |s|);
      assert s[..k] + "零" + s[k..|s|] == t && s[..|s|] == s;
    } else {
      var i := FirstIndex(s, '元');
      FirstIndexIsFirst(s, '元');
      assert i >= k;
      var a, b := s[..i], s[i + 1..];
      var a' := s[..k] + "零" + s[k..i];
      assert '元' !in a' by {
        forall n | 0 <= n < |a'| ensures a'[n] != '元' {
          if n > k { assert a'[n] == s[n - 1]; }
        }
      }
      assert s == a + "元" + b;
      assert t == a' + "元" + b;
      SplitAtFirst(a, b);
      SplitAtFirst(a', b);
      ZeroDropped(s, k, i);
    }
    SameParts(s, t);
  }

  /** Removing 零 from the first `n` characters with a 零 inserted at `k`
      gives what it gave before. */
  lemma ZeroDropped(s: string, k: nat, n: nat)
    requires k <= n <= |s|
    ensures RemoveZeros(s[..k] + "零" + s[k..n]) == RemoveZeros(s[..n])
  {
    assert s[..k] + "零" + s[k..n] == s[..k] + ("零" + s[k..n]);
    RemoveZerosAppend(s[..k], "零" + s[k..n]);
    RemoveZerosAppend("零", s[k..n]);
    RemoveZerosAppend(s[..k], s[k..n]);
    assert s[..k] + s[k..n] == s[..n];
  }
}
