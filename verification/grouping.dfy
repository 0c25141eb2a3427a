/** The grouping pass of the integer decoder: tokens, left to right, into
    place-value groups of one or two tokens (a digit, a carry, or a digit
    followed by a carry). */
module Grouping {
  import opened Outcome
  import opened Tables
  import opened Upper

  type Group = seq<RmbUpper>

  predicate IsCarry(t: RmbUpper) { t.value in UnitUpper }

  predicate IsDigit(t: RmbUpper) { t.value in DigitUpper }

  /** Every group holds one or two tokens. */
  predicate WellSized(groups: seq<Group>)
  {
    forall i :: 0 <= i < |groups| ==> 1 <= |groups[i]| <= 2
  }

  function Last(groups: seq<Group>): Group
    requires |groups| > 0
  {
    groups[|groups| - 1]
  }

  /** `groups[-1].append(t)` on a last group of one token */
  function JoinLast(groups: seq<Group>, t: RmbUpper): (r: seq<Group>)
    requires WellSized(groups) && |groups| > 0 && |Last(groups)| == 1
    ensures WellSized(r) && |r| == |groups|
    ensures forall i :: 0 <= i < |groups| - 1 ==> r[i] == groups[i]
    ensures Last(r) == Last(groups) + [t]
  {
    groups[..|groups| - 1] + [Last(groups) + [t]]
  }

  /** `groups.append([t])` */
  function NewGroup(groups: seq<Group>, t: RmbUpper): (r: seq<Group>)
    requires WellSized(groups)
    ensures WellSized(r) && |r| == |groups| + 1
    ensures forall i :: 0 <= i < |groups| ==> r[i] == groups[i]
    ensures Last(r) == [t]
  {
    groups + [[t]]
  }

  /** `groups[-2][-1]`: the token that ends the group before the last one. */
  function PrevTail(groups: seq<Group>): RmbUpper
    requires WellSized(groups) && |groups| >= 2
  {
    var g := groups[|groups| - 2];
    g[|g| - 1]
  }

  /** Where an incoming carry goes when the last group holds one token
      (the source's carry branch, comparing with `groups[-2][-1]`). */
  function PlaceCarry(groups: seq<Group>, t: RmbUpper): (r: Result<seq<Group>>)
    requires WellSized(groups) && |groups| >= 1 && |Last(groups)| == 1
    ensures r.Err? ==> r.error == UnknownUnit
    ensures r.Ok? ==> WellSized(r.value)
    ensures r.Ok? ==> |groups| <= |r.value| <= |groups| + 1
    ensures r.Ok? ==> forall i :: 0 <= i < |groups| - 1 ==> r.value[i] == groups[i]
    ensures r.Ok? && r.value != groups ==> Last(r.value)[|Last(r.value)| - 1] == t
  {
    if |groups| < 2 then Ok(JoinLast(groups, t))
    else
      match PrevTail(groups).Gt(t)
      case Err(e) => Err(e)
      case Ok(greater) =>
        if greater then Ok(JoinLast(groups, t))
        else
          match PrevTail(groups).Lt(t)
          case Err(e) => Err(e)
          case Ok(less) => if less then Ok(NewGroup(groups, t)) else Ok(groups)
  }

  /** One turn of the grouping loop: where token `t` goes. A token outside
      both tables that does not start a group is dropped. */
  function Step(groups: seq<Group>, t: RmbUpper): (r: Result<seq<Group>>)
    requires WellSized(groups)
    ensures r.Err? ==> r.error == UnknownUnit
    ensures r.Ok? ==> WellSized(r.value)
    ensures r.Ok? ==> |groups| <= |r.value| <= |groups| + 1 && |r.value| >= 1
    ensures r.Ok? ==> forall i :: 0 <= i < |groups| - 1 ==> r.value[i] == groups[i]
    ensures r.Ok? && r.value != groups ==> Last(r.value)[|Last(r.value)| - 1] == t
  {
    if |groups| == 0 || |Last(groups)| >= 2 then Ok(NewGroup(groups, t))
    else if IsCarry(t) then PlaceCarry(groups, t)
    else if IsDigit(t) then
      if IsCarry(Last(groups)[0]) then Ok(NewGroup(groups, t)) else Ok(JoinLast(groups, t))
    else Ok(groups)
  }

  /** The rest of the grouping loop, from `groups` on, over `tokens`. */
  function GroupFrom(groups: seq<Group>, tokens: seq<RmbUpper>): (r: Result<seq<Group>>)
    requires WellSized(groups)
    ensures r.Err? ==> r.error == UnknownUnit
    ensures r.Ok? ==> WellSized(r.value)
    ensures r.Ok? ==> |groups| <= |r.value| <= |groups| + |tokens|
    ensures r.Ok? && |tokens| > 0 ==> |r.value| >= 1
    decreases |tokens|
  {
    if tokens == [] then Ok(groups)
    else
      match Step(groups, tokens[0])
      case Err(e) => Err(e)
      case Ok(next) => GroupFrom(next, tokens[1..])
  }

  /** The whole grouping pass over `tokens`. */
  function GroupAll(tokens: seq<RmbUpper>): (r: Result<seq<Group>>)
    ensures r.Err? ==> r.error == UnknownUnit
    ensures r.Ok? ==> WellSized(r.value) && |r.value| <= |tokens|
    ensures r.Ok? ==> (|r.value| == 0 <==> |tokens| == 0)
  {
    GroupFrom([], tokens)
  }

  /** The grouping loop of `_convert_integer`, growing `groups` by appending
      a new group or extending the last one. */
  method GroupTokens(instances: seq<RmbUpper>) returns (r: Result<seq<Group>>)
    ensures r == GroupAll(instances)
  {
    var groups: seq<Group> := [];
    for index := 0 to |instances|
      invariant WellSized(groups)
      invariant GroupFrom(groups, instances[index..]) == GroupAll(instances)
    {
      var instance := instances[index];
      assert instances[index..][1..] == instances[index + 1..];
      if |groups| == 0 || |groups[|groups| - 1]| >= 2 {
        groups := groups + [[instance]];
      } else if instance.value in UnitUpper {
        if |groups| < 2 {
          groups := groups[..|groups| - 1] + [groups[|groups| - 1] + [instance]];
        } else {
          var prev := groups[|groups| - 2][|groups[|groups| - 2]| - 1];
          var greater := prev.Gt(instance);
          if greater.Err? {
            return Err(greater.error);
          }
          if greater.value {
            groups := groups[..|groups| - 1] + [groups[|groups| - 1] + [instance]];
          } else {
            var less := prev.Lt(instance);
            if less.Err? {
              return Err(less.error);
            }
            if less.value {
              groups := groups + [[instance]];
            }
          }
        }
      } else if instance.value in DigitUpper {
        if groups[|groups| - 1][0].value in UnitUpper {
          groups := groups + [[instance]];
        } else {
          groups := groups[..|groups| - 1] + [groups[|groups| - 1] + [instance]];
        }
      }
    }
    assert instances[|instances|..] == [];
    return Ok(groups);
  }

  /** A carry after a lone token: it joins that token when there is no
      earlier group or the earlier group ends in a larger character, starts
      a group of its own when that character is smaller, and is dropped when
      it is the same character; an earlier group ending outside the alphabet
      makes the comparison fail. */
  lemma CarryPlacement(groups: seq<Group>, t: RmbUpper)
    requires WellSized(groups) && |groups| >= 1 && |Last(groups)| == 1
    requires IsCarry(t)
    ensures |groups| == 1 ==> Step(groups, t) == Ok(JoinLast(groups, t))
    ensures |groups| >= 2 && PrevTail(groups).value !in Units ==>
      Step(groups, t) == Err(UnknownUnit)
    ensures |groups| >= 2 && PrevTail(groups).value in Units ==>
      var p := Units[PrevTail(groups).value];
      var c := Units[t.value];
      (p > c ==> Step(groups, t) == Ok(JoinLast(groups, t))) &&
      (p < c ==> Step(groups, t) == Ok(NewGroup(groups, t))) &&
      (p == c <==> Step(groups, t) == Ok(groups))
  {
    MergedTable();
    if |groups| >= 2 && PrevTail(groups).value in Units {
      var p := Units[PrevTail(groups).value];
      var c := Units[t.value];
      if Step(groups, t) == Ok(groups) {
        assert |Last(NewGroup(groups, t))| == 1 && |Last(JoinLast(groups, t))| == 2;
      }
    }
  }

  /** A digit after a group whose first token is a carry always starts a new
      group; after a lone digit (or a lone unknown character) it joins it. */
  lemma DigitPlacement(groups: seq<Group>, t: RmbUpper)
    requires WellSized(groups) && |groups| >= 1
    requires IsDigit(t)
    ensures IsCarry(Last(groups)[0]) ==> Step(groups, t) == Ok(NewGroup(groups, t))
    ensures |Last(groups)| == 1 && !IsCarry(Last(groups)[0]) ==> Step(groups, t) == Ok(JoinLast(groups, t))
  {
    MergedTable();
  }
}
