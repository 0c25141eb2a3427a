/** The list built-ins the decoder relies on: `list.index`, `max` and `sum`. */
module Seqs {

  /** `s.index(x, from)`: the first position at or after `from` holding `x`. */
  function IndexFrom<T(==)>(s: seq<T>, x: T, from: nat): (i: nat)
    requires exists k :: from <= k < |s| && s[k] == x
    ensures from <= i < |s| && s[i] == x
    decreases |s| - from
  {
    if s[from] == x then from else IndexFrom(s, x, from + 1)
  }

  /** No position between `from` and `IndexFrom` holds `x`. */
  lemma {:induction false} IndexFromIsFirst<T>(s: seq<T>, x: T, from: nat)
    requires exists k :: from <= k < |s| && s[k] == x
    ensures forall k :: from <= k < IndexFrom(s, x, from) ==> s[k] != x
    decreases |s| - from
  {
    if s[from] != x {
      IndexFromIsFirst(s, x, from + 1);
    }
  }

  /** Python's `s.index(x)`: the position of the first occurrence of `x`. */
  function FirstIndex<T(==)>(s: seq<T>, x: T): (i: nat)
    requires x in s
    ensures i < |s| && s[i] == x
  {
    IndexFrom(s, x, 0)
  }

  /** `s.index(x)` is the first occurrence: no earlier position holds `x`. */
  lemma FirstIndexIsFirst<T>(s: seq<T>, x: T)
    requires x in s
    ensures forall k :: 0 <= k < FirstIndex(s, x) ==> s[k] != x
  {
    IndexFromIsFirst(s, x, 0);
  }

  /** Python's `max(s[start:])` on a non-empty suffix of numbers. */
  function MaxFrom(s: seq<real>, start: nat): (m: real)
    requires start < |s|
    ensures exists k :: start <= k < |s| && s[k] == m
    decreases |s| - start
  {
    if start == |s| - 1 then s[start]
    else
      var rest := MaxFrom(s, start + 1);
      if s[start] >= rest then s[start] else rest
  }

  /** `MaxFrom` bounds every value of the suffix. */
  lemma {:induction false} MaxFromIsMax(s: seq<real>, start: nat)
    requires start < |s|
    ensures forall k :: start <= k < |s| ==> s[k] <= MaxFrom(s, start)
    decreases |s| - start
  {
    if start < |s| - 1 {
      MaxFromIsMax(s, start + 1);
    }
  }

  /** A non-empty suffix is its first element followed by the rest. */
  lemma SuffixCons<T>(s: seq<T>, i: nat)
    requires i < |s|
    ensures s[i..] == [s[i]] + s[i + 1..]
  {
  }

  /** Short list displays built by putting one element in front. */
  lemma ConsFour<T>(a: T, b: T, c: T, d: T)
    ensures [a] + [b, c, d] == [a, b, c, d]
  {
  }

  lemma ConsFive<T>(a: T, b: T, c: T, d: T, e: T)
    ensures [a] + [b, c, d, e] == [a, b, c, d, e]
  {
  }

  /** Python's `sum(s)`. */
  function Sum(s: seq<real>): real
  {
    if s == [] then 0.0 else s[0] + Sum(s[1..])
  }
}
