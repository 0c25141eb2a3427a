/** From place-value groups to the integer: each group becomes a number, and
    the numbers are combined by the "largest anchor" loop. */
module Reduction {
  import opened Outcome
  import opened Seqs
  import opened Tables
  import opened Upper
  import opened Grouping

  /** The number a group stands for: a lone token's number, or the product
      of a pair's numbers; None when a token has no number. */
  function GroupValue(g: Group): Option<real>
    requires 1 <= |g| <= 2
  {
    if |g| == 1 then g[0].Number()
    else if g[0].Number().Some? && g[1].Number().Some? then
      Some(g[0].Number().value * g[1].Number().value)
    else None
  }

  /** A pair whose tokens both have numbers is worth their product. */
  lemma PairValue(g: Group)
    requires |g| == 2 && g[0].Number().Some? && g[1].Number().Some?
    ensures GroupValue(g) == Some(g[0].Number().value * g[1].Number().value)
  {
    assert GroupValue(g).value == g[0].Number().value * g[1].Number().value;
  }

  /** Every group turned into its number; a group without one fails. */
  function Evaluate(groups: seq<Group>): (r: Result<seq<real>>)
    requires WellSized(groups)
    ensures r.Err? ==> r.error == NoneArithmetic
    ensures r.Ok? <==> forall i :: 0 <= i < |groups| ==> GroupValue(groups[i]).Some?
    ensures r.Ok? ==> |r.value| == |groups|
    ensures r.Ok? ==> forall i :: 0 <= i < |groups| ==> GroupValue(groups[i]) == Some(r.value[i])
  {
    if groups == [] then Ok([])
    else
      match GroupValue(groups[0])
      case None => Err(NoneArithmetic)
      case Some(v) =>
        var rest := Evaluate(groups[1..]);
        assert forall i :: 1 <= i < |groups| ==> groups[i] == groups[1..][i - 1];
        Prepend([v], rest)
  }

  /** The evaluation loop of `_convert_integer`. */
  method EvaluateGroups(groups: seq<Group>) returns (r: Result<seq<real>>)
    requires WellSized(groups)
    ensures r == Evaluate(groups)
  {
    var values: seq<real> := [];
    for index := 0 to |groups|
      invariant |values| == index
      invariant forall k :: 0 <= k < index ==> GroupValue(groups[k]) == Some(values[k])
    {
      var units := groups[index];
      var number: Option<real>;
      if |units| == 1 {
        number := units[0].Number();
      } else if units[0].Number().Some? && units[1].Number().Some? {
        PairValue(units);
        number := Some(units[0].Number().value * units[1].Number().value);
      } else {
        number := None;
      }
      if number.None? {
        return Err(NoneArithmetic);
      }
      values := values + [number.value];
    }
    assert Evaluate(groups).Ok?;
    assert Evaluate(groups).value == values;
    return Ok(values);
  }

  /** `groups.index(max(groups[start:]))`: the first position in the WHOLE
      list holding the maximum of the suffix that begins at `start`. */
  function Anchor(values: seq<real>, start: nat): (i: nat)
    requires start < |values|
    ensures i < |values| && values[i] == MaxFrom(values, start)
  {
    FirstIndex(values, MaxFrom(values, start))
  }

  /** The anchor found by searching the suffix itself. */
  function SuffixAnchor(values: seq<real>, start: nat): (i: nat)
    requires start < |values|
    ensures start <= i < |values| && values[i] == MaxFrom(values, start)
  {
    IndexFrom(values, MaxFrom(values, start), start)
  }

  /** A list of anchor positions that the loop can pick from `start` on:
      each at or after the position following the previous one, the last
      one the list's last position. */
  predicate Chain(n: nat, start: nat, anchors: seq<nat>)
    decreases |anchors|
  {
    |anchors| > 0 && start <= anchors[0] < n &&
    if |anchors| == 1 then anchors[0] == n - 1
    else anchors[0] < n - 1 && Chain(n, anchors[0] + 1, anchors[1..])
  }

  /** The positions the anchor loop picks from `start` on. The loop fails
      (`Diverges`) as soon as an anchor lies before its start: from there
      it never exits (DivergenceTrap). */
  function AnchorsFrom(values: seq<real>, start: nat): (r: Result<seq<nat>>)
    requires start < |values|
    ensures r.Err? ==> r.error == Diverges
    ensures r.Ok? ==> Chain(|values|, start, r.value)
    decreases |values| - start
  {
    var anchor := Anchor(values, start);
    if anchor < start then Err(Diverges)
    else if anchor == |values| - 1 then Ok([anchor])
    else Prepend([anchor], AnchorsFrom(values, anchor + 1))
  }

  /** The positions the loop would pick with the anchor searched in the
      suffix; this search never steps back, so it always ends. */
  function SuffixAnchorsFrom(values: seq<real>, start: nat): (r: seq<nat>)
    requires start < |values|
    ensures Chain(|values|, start, r)
    decreases |values| - start
  {
    var anchor := SuffixAnchor(values, start);
    if anchor == |values| - 1 then [anchor]
    else [anchor] + SuffixAnchorsFrom(values, anchor + 1)
  }

  /** What one anchor adds: the sum since the previous anchor times the
      anchor, or the anchor alone when that sum is 0. */
  function Contribution(values: seq<real>, start: nat, anchor: nat): real
    requires start <= anchor < |values|
  {
    var add := Sum(values[start..anchor]);
    if add != 0.0 then add * values[anchor] else values[anchor]
  }

  /** The `mul` list: one contribution per anchor. */
  function Contributions(values: seq<real>, start: nat, anchors: seq<nat>): (r: seq<real>)
    requires Chain(|values|, start, anchors)
    ensures |r| == |anchors|
    decreases |anchors|
  {
    [Contribution(values, start, anchors[0])] +
    if |anchors| == 1 then [] else Contributions(values, anchors[0] + 1, anchors[1..])
  }

  /** The rest of the anchor loop from `start` on, with the contributions
      `mul` collected so far: find the anchor, fail if it lies before
      `start` (the loop would never exit), add its contribution, and stop
      at the last position. */
  function ReduceFrom(values: seq<real>, start: nat, mul: seq<real>): (r: Result<real>)
    requires start < |values|
    ensures r.Err? ==> r.error == Diverges
    decreases |values| - start
  {
    var anchor := Anchor(values, start);
    if anchor < start then Err(Diverges)
    else
      var next := mul + [Contribution(values, start, anchor)];
      if anchor == |values| - 1 then Ok(Sum(next))
      else ReduceFrom(values, anchor + 1, next)
  }

  /** The integer the anchor loop returns: `sum(mul)`; an empty list has no
      maximum. */
  function Reduce(values: seq<real>): (r: Result<real>)
    ensures r.Err? ==> r.error in {EmptyInteger, Diverges}
    ensures r == Err(EmptyInteger) <==> values == []
  {
    if values == [] then Err(EmptyInteger) else ReduceFrom(values, 0, [])
  }

  /** The contributions of a chain that starts with `anchor`. */
  lemma ContributionsCons(values: seq<real>, start: nat, anchor: nat, rest: seq<nat>)
    requires Chain(|values|, start, [anchor] + rest) && rest != []
    ensures Contributions(values, start, [anchor] + rest) ==
      [Contribution(values, start, anchor)] + Contributions(values, anchor + 1, rest)
  {
    assert ([anchor] + rest)[1..] == rest;
  }

  /** `ReduceFrom` agrees with the closed form at `start`: it fails exactly
      when the anchor positions do, and otherwise sums `mul` and one
      contribution per anchor. */
  predicate ClosedForm(values: seq<real>, start: nat, mul: seq<real>)
    requires start < |values|
  {
    match AnchorsFrom(values, start)
    case Err(_) => ReduceFrom(values, start, mul) == Err(Diverges)
    case Ok(anchors) => ReduceFrom(values, start, mul) == Ok(Sum(mul + Contributions(values, start, anchors)))
  }

  /** The closed form when the anchor lies before `start`: both fail. */
  lemma ClosedFormBefore(values: seq<real>, start: nat, mul: seq<real>)
    requires start < |values| && Anchor(values, start) < start
    ensures ClosedForm(values, start, mul)
  {
    assert AnchorsFrom(values, start) == Err(Diverges);
  }

  /** The closed form at the last anchor. */
  lemma ClosedFormLast(values: seq<real>, start: nat, mul: seq<real>)
    requires start < |values| && Anchor(values, start) == |values| - 1
    ensures ClosedForm(values, start, mul)
  {
    var anchor := Anchor(values, start);
    ReduceFromStep(values, start, mul);
    assert AnchorsFrom(values, start) == Ok([anchor]);
    assert Contributions(values, start, [anchor]) == [Contribution(values, start, anchor)];
  }

  /** The closed form carries back over one anchor. */
  lemma ClosedFormStep(values: seq<real>, start: nat, mul: seq<real>)
    requires start < |values| && start <= Anchor(values, start) < |values| - 1
    requires ClosedForm(values, Anchor(values, start) + 1, mul + [Contribution(values, start, Anchor(values, start))])
    ensures ClosedForm(values, start, mul)
  {
    var anchor := Anchor(values, start);
    var next := mul + [Contribution(values, start, anchor)];
    ReduceFromStep(values, start, mul);
    var tail := AnchorsFrom(values, anchor + 1);
    assert AnchorsFrom(values, start) == Prepend([anchor], tail);
    if tail.Ok? {
      ContributionsCons(values, start, anchor, tail.value);
      assert next + Contributions(values, anchor + 1, tail.value) ==
        mul + Contributions(values, start, [anchor] + tail.value);
    }
  }

  /** The loop's result is in closed form from every `start` on. */
  lemma {:induction false} ReduceFromAnchors(values: seq<real>, start: nat, mul: seq<real>)
    requires start < |values|
    ensures ClosedForm(values, start, mul)
    decreases |values| - start
  {
    var anchor := Anchor(values, start);
    if anchor < start {
      ClosedFormBefore(values, start, mul);
    } else if anchor == |values| - 1 {
      ClosedFormLast(values, start, mul);
    } else {
      ReduceFromAnchors(values, anchor + 1, mul + [Contribution(values, start, anchor)]);
      ClosedFormStep(values, start, mul);
    }
  }

  /** `Reduce` in terms of the anchor positions and their contributions. */
  lemma ReduceByAnchors(values: seq<real>)
    requires |values| > 0
    ensures AnchorsFrom(values, 0).Err? ==> Reduce(values) == Err(Diverges)
    ensures AnchorsFrom(values, 0).Ok? ==>
      Reduce(values) == Ok(Sum(Contributions(values, 0, AnchorsFrom(values, 0).value)))
  {
    ReduceFromAnchors(values, 0, []);
    assert ClosedForm(values, 0, []);
    if AnchorsFrom(values, 0).Ok? {
      assert [] + Contributions(values, 0, AnchorsFrom(values, 0).value)
        == Contributions(values, 0, AnchorsFrom(values, 0).value);
    }
  }

  /** One round of the anchor loop, for an anchor at or after `start`: the
      loop either stops at the last position with the sum of the collected
      contributions, or goes on after the anchor. */
  lemma ReduceFromStep(values: seq<real>, start: nat, mul: seq<real>)
    requires start < |values| && start <= Anchor(values, start)
    ensures Anchor(values, start) == |values| - 1 ==>
      ReduceFrom(values, start, mul) == Ok(Sum(mul + [Contribution(values, start, Anchor(values, start))]))
    ensures Anchor(values, start) < |values| - 1 ==>
      ReduceFrom(values, start, mul) ==
      ReduceFrom(values, Anchor(values, start) + 1, mul + [Contribution(values, start, Anchor(values, start))])
  {
  }

  /** The term the loop appends for an anchor, given the sum `add` of the
      values since the previous anchor. */
  lemma ContributionOf(values: seq<real>, start: nat, anchor: nat, add: real)
    requires start <= anchor < |values| && add == Sum(values[start..anchor])
    ensures add != 0.0 ==> Contribution(values, start, anchor) == add * values[anchor]
    ensures add == 0.0 ==> Contribution(values, start, anchor) == values[anchor]
  {
  }

  /** The anchor loop of `_convert_integer`. */
  method ReduceGroups(groups: seq<real>) returns (r: Result<real>)
    ensures r == Reduce(groups)
  {
    if |groups| == 0 {
      return Err(EmptyInteger);
    }
    var mul: seq<real> := [];
    var start := 0;
    while true
      invariant 0 <= start < |groups|
      invariant ReduceFrom(groups, start, mul) == Reduce(groups)
      decreases |groups| - start
    {
      var maxIndex := FirstIndex(groups, MaxFrom(groups, start));
      assert maxIndex == Anchor(groups, start);
      if maxIndex < start {
        return Err(Diverges);
      }
      var add := Sum(groups[start..maxIndex]);
      ReduceFromStep(groups, start, mul);
      ContributionOf(groups, start, maxIndex, add);
      ghost var next := mul + [Contribution(groups, start, maxIndex)];
      if add != 0.0 {
        mul := mul + [add * groups[maxIndex]];
      } else {
        mul := mul + [groups[maxIndex]];
      }
      assert mul == next;
      if |groups| - 1 == maxIndex {
        break;
      }
      start := maxIndex + 1;
    }
    return Ok(Sum(mul));
  }

  /** The anchor lies before `start` exactly when the suffix maximum also
      occurs before `start`; otherwise it is the suffix search's anchor. */
  lemma AnchorCases(values: seq<real>, start: nat)
    requires start < |values|
    ensures Anchor(values, start) < start <==>
      exists k :: 0 <= k < start && values[k] == MaxFrom(values, start)
    ensures Anchor(values, start) >= start ==> Anchor(values, start) == SuffixAnchor(values, start)
  {
    var m := MaxFrom(values, start);
    FirstIndexIsFirst(values, m);
    IndexFromIsFirst(values, m, start);
  }

  /** Once the anchor lies before `start`, the loop is trapped: from every
      start position up to `start` the next anchor again lies before
      `start`, so the loop never gets past `start` and never meets its exit
      test (an anchor at the last position, which is at or after `start`). */
  lemma DivergenceTrap(values: seq<real>, start: nat)
    requires start < |values| && Anchor(values, start) < start
    ensures forall t :: 0 <= t <= start ==>
      Anchor(values, t) < start && Anchor(values, t) != |values| - 1
  {
    var m := MaxFrom(values, start);
    MaxFromIsMax(values, start);
    forall t | 0 <= t <= start
      ensures Anchor(values, t) < start
    {
      var big := MaxFrom(values, t);
      MaxFromIsMax(values, t);
      FirstIndexIsFirst(values, big);
      var k1 :| t <= k1 < |values| && values[k1] == big;
      var k :| start <= k < |values| && values[k] == m;
      assert m <= big;
    }
  }

  /** Group values that are all different. */
  predicate Distinct(values: seq<real>)
  {
    forall i, j :: 0 <= i < j < |values| ==> values[i] != values[j]
  }

  /** With no repeated value the anchor is the suffix search's anchor. */
  lemma DistinctAnchor(values: seq<real>, start: nat)
    requires start < |values| && Distinct(values)
    ensures Anchor(values, start) == SuffixAnchor(values, start)
  {
    var km :| start <= km < |values| && values[km] == MaxFrom(values, start);
    AnchorCases(values, start);
  }

  /** With no repeated value the loop never steps back, and it picks the
      anchors the suffix search picks. */
  lemma {:induction false} DistinctAgrees(values: seq<real>, start: nat)
    requires start < |values| && Distinct(values)
    ensures AnchorsFrom(values, start) == Ok(SuffixAnchorsFrom(values, start))
    decreases |values| - start
  {
    DistinctAnchor(values, start);
    var anchor := Anchor(values, start);
    if anchor < |values| - 1 {
      DistinctAgrees(values, anchor + 1);
    }
  }

  /** For distinct group values the decoder's integer is the suffix search's. */
  lemma DistinctReduce(values: seq<real>)
    requires |values| > 0 && Distinct(values)
    ensures Reduce(values) == Ok(Sum(Contributions(values, 0, SuffixAnchorsFrom(values, 0))))
  {
    DistinctAgrees(values, 0);
    ReduceByAnchors(values);
  }

  /** Whenever the loop ends, it picks the anchors the suffix search picks,
      repeated values or not: a step back is the only way the two differ. */
  lemma {:induction false} AnchorsAgree(values: seq<real>, start: nat)
    requires start < |values|
    ensures AnchorsFrom(values, start).Ok? ==>
      AnchorsFrom(values, start) == Ok(SuffixAnchorsFrom(values, start))
    decreases |values| - start
  {
    AnchorCases(values, start);
    var anchor := Anchor(values, start);
    if start <= anchor < |values| - 1 {
      AnchorsAgree(values, anchor + 1);
    }
  }

  /** Whenever the decoder returns an integer, it is the suffix search's sum
      of contributions. */
  lemma ReduceAgrees(values: seq<real>)
    requires |values| > 0
    ensures Reduce(values).Ok? ==>
      Reduce(values) == Ok(Sum(Contributions(values, 0, SuffixAnchorsFrom(values, 0))))
  {
    AnchorsAgree(values, 0);
    ReduceByAnchors(values);
  }

  /** `Anchor` is position `i` when `values[i]` tops the suffix from `start`
      and occurs nowhere before `i`. */
  lemma AnchorAt(values: seq<real>, start: nat, i: nat)
    requires start <= i < |values|
    requires forall k :: start <= k < |values| ==> values[k] <= values[i]
    requires forall k :: 0 <= k < i ==> values[k] != values[i]
    ensures Anchor(values, start) == i
  {
    var k :| start <= k < |values| && values[k] == MaxFrom(values, start);
    MaxFromIsMax(values, start);
    FirstIndexIsFirst(values, values[i]);
  }

  /** In a strictly falling list every position is its own anchor and its
      term is its own value. */
  lemma FallingAnchor(values: seq<real>, start: nat)
    requires start < |values|
    requires forall i, j :: 0 <= i < j < |values| ==> values[i] > values[j]
    ensures Anchor(values, start) == start
    ensures Contribution(values, start, start) == values[start]
  {
    AnchorAt(values, start, start);
    assert values[start..start] == [];
  }

  /** A strictly falling list: the loop takes every position in turn and
      each term is the value itself. */
  lemma {:induction false} FallingAnchors(values: seq<real>, start: nat)
    requires start < |values|
    requires forall i, j :: 0 <= i < j < |values| ==> values[i] > values[j]
    ensures AnchorsFrom(values, start).Ok?
    ensures Contributions(values, start, AnchorsFrom(values, start).value) == values[start..]
    decreases |values| - start
  {
    FallingAnchor(values, start);
    if start < |values| - 1 {
      FallingAnchors(values, start + 1);
      AnchorsCons(values, start);
      var rest := AnchorsFrom(values, start + 1).value;
      ContributionsCons(values, start, start, rest);
      SuffixCons(values, start);
    } else {
      assert values[start..] == [values[start]];
    }
  }

  /** A strictly falling list (a plain amount with no 万 or 亿, such as
      [5000, 300, 20, 1]) reduces to its sum: every value is its own anchor. */
  lemma FallingReducesToSum(values: seq<real>)
    requires |values| > 0
    requires forall i, j :: 0 <= i < j < |values| ==> values[i] > values[j]
    ensures Reduce(values) == Ok(Sum(values))
  {
    FallingAnchors(values, 0);
    ReduceByAnchors(values);
    assert values[0..] == values;
  }

  /** The anchor positions from `start` on, when the first anchor is at or
      after `start` and is not the last position. */
  lemma AnchorsCons(values: seq<real>, start: nat)
    requires start < |values| && start <= Anchor(values, start) < |values| - 1
    ensures AnchorsFrom(values, start) ==
      Prepend([Anchor(values, start)], AnchorsFrom(values, Anchor(values, start) + 1))
  {
  }

  /** The group values of the worked example of `to_number`'s
      documentation, 叁拾贰亿伍仟零捌拾万壹仟叁佰玖拾元整:
      [30, 2, 10^8, 5000, 80, 10^4, 1000, 300, 90]. */
  predicate DocumentedValues(v: seq<real>)
  {
    |v| == 9 && v[0] == 30.0 && v[1] == 2.0 && v[2] == 100000000.0 &&
    v[3] == 5000.0 && v[4] == 80.0 && v[5] == 10000.0 &&
    v[6] == 1000.0 && v[7] == 300.0 && v[8] == 90.0
  }

  /** The last three values of the worked example are their own anchors. */
  lemma DocumentedTailAnchors(v: seq<real>)
    requires DocumentedValues(v)
    ensures AnchorsFrom(v, 6) == Ok([6, 7, 8])
  {
    AnchorAt(v, 6, 6);
    AnchorAt(v, 7, 7);
    AnchorAt(v, 8, 8);
    assert AnchorsFrom(v, 8) == Ok([8]);
    AnchorsCons(v, 7);
    assert [7] + [8] == [7, 8];
    AnchorsCons(v, 6);
    assert [6] + [7, 8] == [6, 7, 8];
  }

  /** The worked example anchors at 10^8, 10^4, 1000, 300 and 90. */
  lemma DocumentedAnchors(v: seq<real>)
    requires DocumentedValues(v)
    ensures AnchorsFrom(v, 0) == Ok([2, 5, 6, 7, 8])
  {
    DocumentedTailAnchors(v);
    AnchorAt(v, 0, 2);
    AnchorAt(v, 3, 5);
    AnchorsCons(v, 3);
    assert [5] + [6, 7, 8] == [5, 6, 7, 8];
    AnchorsCons(v, 0);
    assert [2] + [5, 6, 7, 8] == [2, 5, 6, 7, 8];
  }

  /** Each anchor's term in the worked example. */
  lemma DocumentedContributions(v: seq<real>)
    requires DocumentedValues(v)
    ensures Contribution(v, 0, 2) == 3200000000.0 && Contribution(v, 3, 5) == 50800000.0
    ensures Contribution(v, 6, 6) == 1000.0 && Contribution(v, 7, 7) == 300.0 && Contribution(v, 8, 8) == 90.0
  {
    assert v[0..2] == [30.0, 2.0] && v[3..5] == [5000.0, 80.0];
    assert Sum([30.0, 2.0]) == 32.0 && Sum([5000.0, 80.0]) == 5080.0;
    assert v[6..6] == [] && v[7..7] == [] && v[8..8] == [];
  }

  /** The last three terms of the worked example's `mul` list. */
  lemma DocumentedTailMul(v: seq<real>)
    requires DocumentedValues(v)
    ensures Chain(|v|, 6, [6, 7, 8]) &&
      Contributions(v, 6, [6, 7, 8]) == [1000.0, 300.0, 90.0]
  {
    DocumentedTailAnchors(v);
    DocumentedContributions(v);
    assert [7, 8][1..] == [8];
    assert Contributions(v, 7, [7, 8]) == [300.0, 90.0];
    assert [6, 7, 8][1..] == [7, 8];
  }

  /** The last four terms of the worked example's `mul` list. */
  lemma DocumentedMidMul(v: seq<real>)
    requires DocumentedValues(v)
    ensures Chain(|v|, 3, [5, 6, 7, 8]) &&
      Contributions(v, 3, [5, 6, 7, 8]) == [50800000.0, 1000.0, 300.0, 90.0]
  {
    DocumentedContributions(v);
    DocumentedTailMul(v);
    ConsFour(5, 6, 7, 8);
    assert Chain(|v|, 3, [5, 6, 7, 8]);
    ContributionsCons(v, 3, 5, [6, 7, 8]);
    ConsFour(50800000.0, 1000.0, 300.0, 90.0);
  }

  /** The worked example's `mul` list. */
  lemma DocumentedMul(v: seq<real>)
    requires DocumentedValues(v)
    ensures Chain(|v|, 0, [2, 5, 6, 7, 8]) &&
      Contributions(v, 0, [2, 5, 6, 7, 8]) == [3200000000.0, 50800000.0, 1000.0, 300.0, 90.0]
  {
    DocumentedContributions(v);
    DocumentedMidMul(v);
    ConsFive(2, 5, 6, 7, 8);
    assert Chain(|v|, 0, [2, 5, 6, 7, 8]);
    ContributionsCons(v, 0, 2, [5, 6, 7, 8]);
    ConsFive(3200000000.0, 50800000.0, 1000.0, 300.0, 90.0);
  }

  /** The worked example's contributions, (30+2)*10^8, (5000+80)*10^4, 1000,
      300 and 90, sum to 3250801390. */
  lemma DocumentedReduction(v: seq<real>)
    requires DocumentedValues(v)
    ensures Reduce(v) == Ok(3250801390.0)
  {
    DocumentedAnchors(v);
    ReduceByAnchors(v);
    DocumentedMul(v);
    assert Sum([3200000000.0, 50800000.0, 1000.0, 300.0, 90.0]) == 3250801390.0;
  }

  /** A repeated group value sends the loop back: for 壹仟壹拾万壹仟壹拾 the
      groups are [1000, 10, 10^4, 1000, 10]; after the anchor 10^4 the
      suffix maximum 1000 is found at position 0. */
  lemma RepeatedValueDiverges()
    ensures Reduce([1000.0, 10.0, 10000.0, 1000.0, 10.0]) == Err(Diverges)
  {
    var v := [1000.0, 10.0, 10000.0, 1000.0, 10.0];
    AnchorAt(v, 0, 2);
    var k :| 3 <= k < |v| && v[k] == MaxFrom(v, 3);
    MaxFromIsMax(v, 3);
    assert MaxFrom(v, 3) == 1000.0;
    assert Anchor(v, 3) == 0;
    assert ReduceFrom(v, 3, [10000.0 * 1010.0]) == Err(Diverges);
  }

  /** The group values of 叁拾贰亿叁拾万伍: [30, 2, 10^8, 30, 10^4, 5], where
      30 occurs twice. */
  predicate RepeatedValues(v: seq<real>)
  {
    |v| == 6 && v[0] == 30.0 && v[1] == 2.0 && v[2] == 100000000.0 &&
    v[3] == 30.0 && v[4] == 10000.0 && v[5] == 5.0
  }

  /** The anchors of [30, 2, 10^8, 30, 10^4, 5] are 10^8, 10^4 and 5: the
      repeated 30 is never a maximum, so the loop does not step back. */
  lemma RepeatedValueAnchors(v: seq<real>)
    requires RepeatedValues(v)
    ensures AnchorsFrom(v, 0) == Ok([2, 4, 5])
  {
    AnchorAt(v, 0, 2);
    AnchorAt(v, 3, 4);
    AnchorAt(v, 5, 5);
    assert AnchorsFrom(v, 5) == Ok([5]);
    AnchorsCons(v, 3);
    assert [4] + [5] == [4, 5];
    AnchorsCons(v, 0);
    assert [2] + [4, 5] == [2, 4, 5];
  }

  /** Repeated values do not always diverge: 叁拾贰亿叁拾万伍 has a repeated
      group value and still reduces, to (30+2)·10^8 + 30·10^4 + 5. */
  lemma RepeatedValueEnds(v: seq<real>)
    requires RepeatedValues(v)
    ensures !Distinct(v)
    ensures Reduce(v).Ok? && Reduce(v).value == 3200300005.0
  {
    assert v[0] == v[3];
    RepeatedValueAnchors(v);
    ReduceByAnchors(v);
    assert v[0..2] == [30.0, 2.0] && v[3..4] == [30.0] && v[5..5] == [];
    assert Sum([30.0, 2.0]) == 32.0;
    assert Sum([30.0]) == 30.0;
    assert Contribution(v, 0, 2) == 3200000000.0;
    assert Contribution(v, 3, 4) == 300000.0;
    assert Contribution(v, 5, 5) == 5.0;
    assert [4, 5][1..] == [5];
    assert [2, 4, 5][1..] == [4, 5];
    assert Contributions(v, 0, [2, 4, 5]) == [3200000000.0, 300000.0, 5.0];
    assert Sum([3200000000.0, 300000.0, 5.0]) == 3200300005.0;
  }
}
