/** The example of the decoder's documentation, 伍佰叁拾玖万零贰拾壹元叁角伍分,
    followed through every pass: 零 is dropped, the tokens group as
    [伍佰] [叁拾] [玖] [万] [贰拾] [壹], the groups are worth
    [500, 30, 9, 10^4, 20, 1], the anchors 10^4, 20 and 1 give
    (500+30+9)·10^4 + 20 + 1 = 5390021, and 叁角伍分 adds 0.35. */
module Walkthrough {
  import opened Outcome
  import opened Seqs
  import opened Tables
  import opened Upper
  import opened Grouping
  import opened Reduction
  import opened Decimal
  import opened Traditional

  /** A group of the two characters `a` and `b`. */
  predicate Pair(g: Group, a: char, b: char)
  {
    |g| == 2 && g[0].value == a && g[1].value == b
  }

  /** A group of the one character `a`. */
  predicate Single(g: Group, a: char)
  {
    |g| == 1 && g[0].value == a
  }

  /** The tokens of 伍佰叁拾玖万贰拾壹. */
  predicate ExampleTokens(t: seq<RmbUpper>)
  {
    |t| == 9 && t[0].value == '伍' && t[1].value == '佰' && t[2].value == '叁' &&
    t[3].value == '拾' && t[4].value == '玖' && t[5].value == '万' &&
    t[6].value == '贰' && t[7].value == '拾' && t[8].value == '壹'
  }

  /** The groups [伍佰] [叁拾] [玖] [万] [贰拾] [壹]. */
  predicate ExampleGroups(g: seq<Group>)
  {
    |g| == 6 && Pair(g[0], '伍', '佰') && Pair(g[1], '叁', '拾') && Single(g[2], '玖') &&
    Single(g[3], '万') && Pair(g[4], '贰', '拾') && Single(g[5], '壹')
  }

  /** The group values [500, 30, 9, 10^4, 20, 1]. */
  predicate ExampleValues(v: seq<real>)
  {
    |v| == 6 && v[0] == 500.0 && v[1] == 30.0 && v[2] == 9.0 &&
    v[3] == 10000.0 && v[4] == 20.0 && v[5] == 1.0
  }

  /** The grouping loop from position `k` of `tokens` on is one step and
      then the rest. */
  lemma GroupFromAt(groups: seq<Group>, tokens: seq<RmbUpper>, k: nat)
    requires WellSized(groups) && k < |tokens| && Step(groups, tokens[k]).Ok?
    ensures GroupFrom(groups, tokens[k..]) == GroupFrom(Step(groups, tokens[k]).value, tokens[k + 1..])
  {
    assert tokens[k..][0] == tokens[k];
    assert tokens[k..][1..] == tokens[k + 1..];
  }

  /** The table facts the example's grouping turns on: 佰, 拾 and 万 are
      carries, and 拾 is smaller than both 佰 and 万. */
  lemma ExampleUnits()
    ensures '佰' in UnitUpper && '拾' in UnitUpper && '万' in UnitUpper
    ensures '佰' in Units && '拾' in Units && '万' in Units
    ensures Units['佰'] > Units['拾'] && Units['万'] > Units['拾']
  {
    MergedTable();
  }

  /** The first two tokens group as [伍佰]. */
  lemma ExampleFirstPair(t: seq<RmbUpper>)
    requires ExampleTokens(t)
    ensures GroupFrom([], t) == GroupFrom(JoinLast(NewGroup([], t[0]), t[1]), t[2..])
  {
    var g1 := NewGroup([], t[0]);
    assert Step([], t[0]) == Ok(g1);
    GroupFromAt([], t, 0);
    assert t[0..] == t;
    ExampleUnits();
    CarryPlacement(g1, t[1]);
    GroupFromAt(g1, t, 1);
  }

  /** The first four tokens group as [伍佰] [叁拾]. */
  lemma ExampleHead(t: seq<RmbUpper>)
    requires ExampleTokens(t)
    ensures GroupFrom([], t) == GroupFrom(JoinLast(NewGroup(JoinLast(NewGroup([], t[0]), t[1]), t[2]), t[3]), t[4..])
  {
    ExampleFirstPair(t);
    var g2 := JoinLast(NewGroup([], t[0]), t[1]);
    var g3 := NewGroup(g2, t[2]);
    assert Step(g2, t[2]) == Ok(g3);
    GroupFromAt(g2, t, 2);
    assert PrevTail(g3).value == '佰';
    ExampleUnits();
    CarryPlacement(g3, t[3]);
    GroupFromAt(g3, t, 3);
  }

  /** After [伍佰] [叁拾], the other five tokens group as
      [玖] [万] [贰拾] [壹]. */
  lemma ExampleTail(t: seq<RmbUpper>, g4: seq<Group>)
    requires ExampleTokens(t) && WellSized(g4)
    requires |g4| == 2 && |Last(g4)| == 2 && Last(g4)[1].value == '拾'
    ensures GroupFrom(g4, t[4..]).Ok?
    ensures GroupFrom(g4, t[4..]).value ==
      NewGroup(JoinLast(NewGroup(NewGroup(NewGroup(g4, t[4]), t[5]), t[6]), t[7]), t[8])
  {
    var g5 := NewGroup(g4, t[4]);
    assert Step(g4, t[4]) == Ok(g5);
    GroupFromAt(g4, t, 4);
    var g6 := NewGroup(g5, t[5]);
    assert PrevTail(g5).value == '拾';
    ExampleUnits();
    CarryPlacement(g5, t[5]);
    GroupFromAt(g5, t, 5);
    var g7 := NewGroup(g6, t[6]);
    DigitPlacement(g6, t[6]);
    assert Step(g6, t[6]) == Ok(g7);
    GroupFromAt(g6, t, 6);
    var g8 := JoinLast(g7, t[7]);
    assert PrevTail(g7) == t[5];
    CarryPlacement(g7, t[7]);
    GroupFromAt(g7, t, 7);
    var g9 := NewGroup(g8, t[8]);
    assert Step(g8, t[8]) == Ok(g9);
    GroupFromAt(g8, t, 8);
    assert t[9..] == [];
  }

  /** The grouping pass on the example's tokens. */
  lemma ExampleGrouping(t: seq<RmbUpper>)
    requires ExampleTokens(t)
    ensures GroupAll(t).Ok? && ExampleGroups(GroupAll(t).value)
  {
    ExampleHead(t);
    var g4 := JoinLast(NewGroup(JoinLast(NewGroup([], t[0]), t[1]), t[2]), t[3]);
    assert Last(g4)[1] == t[3];
    ExampleTail(t, g4);
  }

  /** The example's groups are worth [500, 30, 9, 10^4, 20, 1]. */
  lemma ExampleEvaluation(g: seq<Group>)
    requires ExampleGroups(g)
    ensures WellSized(g) && Evaluate(g).Ok? && ExampleValues(Evaluate(g).value)
  {
    PairValue(g[0]);
    PairValue(g[1]);
    PairValue(g[4]);
    assert GroupValue(g[0]) == Some(500.0);
    assert GroupValue(g[1]) == Some(30.0);
    assert GroupValue(g[2]) == Some(9.0);
    assert GroupValue(g[3]) == Some(10000.0);
    assert GroupValue(g[4]) == Some(20.0);
    assert GroupValue(g[5]) == Some(1.0);
  }

  /** The anchors of [500, 30, 9, 10^4, 20, 1] are 10^4, 20 and 1. */
  lemma ExampleAnchors(v: seq<real>)
    requires ExampleValues(v)
    ensures AnchorsFrom(v, 0) == Ok([3, 4, 5])
  {
    AnchorAt(v, 0, 3);
    AnchorAt(v, 4, 4);
    AnchorAt(v, 5, 5);
    assert AnchorsFrom(v, 5) == Ok([5]);
    AnchorsCons(v, 4);
    assert [4] + [5] == [4, 5];
    AnchorsCons(v, 0);
    assert [3] + [4, 5] == [3, 4, 5];
  }

  /** ... and they contribute (500+30+9)·10^4, 20 and 1, 5390021 in all. */
  lemma ExampleReduction(v: seq<real>)
    requires ExampleValues(v)
    ensures Reduce(v).Ok? && Reduce(v).value == 5390021.0
  {
    ExampleAnchors(v);
    ReduceByAnchors(v);
    assert v[0..3] == [500.0, 30.0, 9.0] && v[4..4] == [] && v[5..5] == [];
    assert Sum([500.0, 30.0, 9.0]) == 539.0;
    assert Contribution(v, 0, 3) == 5390000.0;
    assert Contribution(v, 4, 4) == 20.0 && Contribution(v, 5, 5) == 1.0;
    assert [4, 5][1..] == [5];
    assert [3, 4, 5][1..] == [4, 5];
    assert Contributions(v, 0, [3, 4, 5]) == [5390000.0, 20.0, 1.0];
    assert Sum([5390000.0, 20.0, 1.0]) == 5390021.0;
  }

  /** 伍佰叁拾玖万贰拾壹, the integer part without its 零, is 5390021. */
  lemma ExampleInteger()
    ensures IntegerValue("伍佰叁拾玖万贰拾壹").Ok?
    ensures IntegerValue("伍佰叁拾玖万贰拾壹").value == 5390021.0
  {
    var t := Tokens("伍佰叁拾玖万贰拾壹");
    assert ExampleTokens(t);
    ExampleGrouping(t);
    var g := GroupAll(t).value;
    ExampleEvaluation(g);
    ExampleReduction(Evaluate(g).value);
  }

  /** The example splits at its 元 into 伍佰叁拾玖万零贰拾壹 and 叁角伍分. */
  lemma ExampleSplit()
    ensures SplitYuan("伍佰叁拾玖万零贰拾壹元叁角伍分") == Ok(("伍佰叁拾玖万零贰拾壹", Some("叁角伍分")))
  {
    assert "伍佰叁拾玖万零贰拾壹元叁角伍分" == "伍佰叁拾玖万零贰拾壹" + "元" + "叁角伍分";
    SplitAtFirst("伍佰叁拾玖万零贰拾壹", "叁角伍分");
  }

  /** One 零 between two runs without 零 is dropped. */
  lemma DropOneZero(a: string, b: string)
    requires '零' !in a && '零' !in b
    ensures RemoveZeros(a + "零" + b) == a + b
  {
    RemoveZerosAppend(a + "零", b);
    RemoveZerosAppend(a, "零");
    NoZeroUnchanged(a);
    NoZeroUnchanged(b);
    assert RemoveZeros("零") == [];
    assert a + [] == a;
  }

  /** Its one 零 is dropped. */
  lemma ExampleZeros()
    ensures RemoveZeros("伍佰叁拾玖万零贰拾壹") == "伍佰叁拾玖万贰拾壹"
  {
    assert "伍佰叁拾玖万零贰拾壹" == "伍佰叁拾玖万" + "零" + "贰拾壹";
    DropOneZero("伍佰叁拾玖万", "贰拾壹");
    assert "伍佰叁拾玖万" + "贰拾壹" == "伍佰叁拾玖万贰拾壹";
  }

  /** 叁角伍分 is 0.35. */
  lemma ExampleFraction()
    ensures DecimalValue(Some("叁角伍分")).Ok? && DecimalValue(Some("叁角伍分")).value == 0.35
  {
    JiaoFen('叁', '伍');
    assert "叁角伍分" == ['叁', '角', '伍', '分'];
  }

  /** 伍佰叁拾玖万零贰拾壹元叁角伍分 decodes to 5390021.35. */
  lemma ExampleAmount()
    ensures ToNumber("伍佰叁拾玖万零贰拾壹元叁角伍分").Ok?
    ensures ToNumber("伍佰叁拾玖万零贰拾壹元叁角伍分").value == 5390021.35
  {
    ExampleSplit();
    ExampleZeros();
    ExampleInteger();
    ExampleFraction();
    ToNumberOk("伍佰叁拾玖万零贰拾壹元叁角伍分");
  }
}
