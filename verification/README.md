# rmbconvert decoder, modelled in Dafny

This project models the decoder of `rmbconvert`. The decoder turns an amount
written in the formal (anti-fraud) Chinese financial numerals, such as
伍佰叁拾玖万零贰拾壹元叁角伍分, into a number. It has four parts.

- **The token `RMBUpper`.** It wraps one character. Its number comes from the
  merged digit and carry tables. Two tokens are ordered by the position of
  their characters in that alphabet, sorted by value.
- **`to_number`.** It splits the amount at 元 and drops every 零 from the
  integer part. Then it decodes the integer part and the fraction and adds the
  two.
- **`_convert_integer`.** Three passes:
  - a grouping pass puts the tokens into place-value groups of one or two
    tokens;
  - each group becomes a number;
  - a "largest anchor" loop combines the numbers. It repeatedly takes the
    maximum of the rest of the list as an anchor and multiplies the sum of the
    values before it by the anchor.
- **`_convert_decimal`.** A character loop: each carry multiplies the most
  recent digit before it.

## Layout

| file | module | what it holds |
|---|---|---|
| outcome.dfy | `Outcome` | `Option`, `Result` and the `Error` kinds: six for the exceptions the decoder raises, and `Diverges` for the anchor loop that never exits |
| seqs.dfy | `Seqs` | `list.index`, `max` of a suffix and `sum`, with their lemmas |
| tables.dfy | `Tables` | the digit table, the carry table, their merge and the alphabet sorted by value |
| upper.dfy | `Upper` | the token `RmbUpper`: its constructor and `Gt`, `Lt`, `Equal` |
| grouping.dfy | `Grouping` | the grouping pass (`Step`, `GroupAll`) and the loop that performs it (`GroupTokens`) |
| reduction.dfy | `Reduction` | group evaluation and the anchor loop (`Reduce`, `ReduceGroups`), with their closed form |
| decimal.dfy | `Decimal` | the fraction (`DecimalValue`) and its loop (`ConvertDecimal`) |
| traditional.dfy | `Traditional` | `ToNumber`, `IntegerValue` and the methods that run the loops |
| walkthrough.dfy | `Walkthrough` | the class documentation's example, 伍佰叁拾玖万零贰拾壹元叁角伍分, followed through every pass to 5390021.35 |

### How the model is built

**Loops.** Each loop of the source is a `method` with a `while` or `for`
loop. Its `ensures` ties the result to a specification function:

- `GroupTokens` to `GroupAll`;
- `EvaluateGroups` to `Evaluate`;
- `ReduceGroups` to `Reduce`;
- `ConvertDecimal` to `DecimalValue`;
- `ConvertInteger` to `IntegerValue`;
- `ConvertToNumber` to `ToNumber`.

The lemmas state the properties of those functions.

**Exceptions.** Each exception becomes an `Err` of a `Result`, with an
`Error` kind naming it.

**Numbers.** They are exact `real`s. 角 is 0.1 and 分 is 0.01, carries in the
carry table like 拾 to 亿. Reals keep the whole alphabet ordered by value.
They avoid both binary rounding and an integer scale: in integer fen, 角 would
be worth 10 like 拾, which would break the ordering of the merged alphabet.

**The `constants` module.** It is not part of this model. Its tables are
declared in `Tables`:

- digits 零..玖 are 0..9;
- carries are 分 0.01, 角 0.1, 拾 10, 佰 100, 仟 1000, 万 10^4 and 亿 10^8.

**The anchor loop.** The source looks the maximum of the suffix up in the
whole list (`groups.index`). When that value also occurs before the suffix,
the loop steps back and never reaches its exit. The model stops there with
`Err(Diverges)`. `DivergenceTrap` proves that from such a point every later
round, from any start up to that point, again picks an anchor before it, so
the loop never gets past that point and never meets its exit test. `ReduceAgrees` shows that
whenever the loop does exit, its integer is the one a plain suffix search
gives. `DistinctReduce` shows that distinct group values always exit.
Repeated values need not diverge (`RepeatedValueEnds`).

### Behaviour of the code that a reader may not expect

The model follows the code in each case.

- 零元整 fails. Nothing is left of the integer part once 零 is dropped, and
  `max` of an empty list raises (`ZeroYuanFails`).
- An amount with no 元 fails. `fraction` stays `None`, and
  `_convert_decimal` iterates it (`ToNumber`'s third `ensures`).
- Two of the demo amounts in test.py:17-18, 壹仟零壹拾万壹仟零壹拾元陆角柒分
  and 壹仟壹佰壹拾壹万壹仟壹佰壹拾壹元壹角壹分, repeat a group value that is
  the maximum of a later suffix. There the anchor loop steps back and never
  exits (`RepeatedValueDiverges` shows it on the group values of 壹仟壹拾万壹仟壹拾).
- The comments at rmbconvert/convert.py:96 and 99 speak of comparing an
  incoming carry with the previous carry. The code compares it with
  `groups[-2][-1]`, the previous group's last token, digit or carry. When
  both are the same character, the carry is dropped (`CarryPlacement`).

## Model

| member | source | states |
|---|---|---|
| Seqs.FirstIndex | rmbconvert/convert.py:34 | `list.index` returns a position that holds the value looked for |
| Seqs.MaxFrom | rmbconvert/convert.py:124 | `max(groups[start_index:])`: a value that occurs in the suffix |
| Seqs.Sum | rmbconvert/convert.py:125 | computes `sum` of a list of reals, left to right |
| Seqs.FirstIndexIsFirst | rmbconvert/convert.py:124 | no position before the one `list.index` returns holds the value |
| Seqs.MaxFromIsMax | rmbconvert/convert.py:124 | `max(groups[start:])` bounds every value of the suffix (and `MaxFrom` is one of them) |
| Tables.MergedTable | rmbconvert/convert.py:19 | the carry and digit tables share no character, and the token's table is their merge |
| Tables.SortedUnitsAreTheKeys | rmbconvert/convert.py:19-21 | the sorted alphabet holds exactly the characters of the merged table |
| Tables.SortedUnitsIsSorted | rmbconvert/convert.py:20-21 | the alphabet is in strictly increasing order of value |
| Upper.RankOrder | rmbconvert/convert.py:20-21 | for two characters of the alphabet, the smaller position is the smaller value, both ways |
| Upper.New | rmbconvert/convert.py:15-23 | construction fails, with `InvalidParams`, exactly when the argument is not one character; the token keeps the character; it has a number exactly when the character is in the merged table |
| Upper.RmbUpper.Number | rmbconvert/convert.py:23 | computes `units.get(self.value)`: the character's value in the merged table, or None outside it |
| Upper.RmbUpper.Gt | rmbconvert/convert.py:31-34 | `>` is false against a character outside the alphabet, fails when only `self` is outside, and otherwise holds exactly when `self`'s value is larger |
| Upper.RmbUpper.Lt | rmbconvert/convert.py:36-39 | the same for `<`, with the smaller value |
| Upper.RmbUpper.Equal | rmbconvert/convert.py:41-42 | two tokens are equal exactly when they are the same token |
| Upper.DocumentedComparisons | rmbconvert/convert.py:10-12 | 佰 < 仟, 叁 > 贰 and 伍 == 伍 hold |
| Upper.Trichotomy | rmbconvert/convert.py:31-42 | for two members of the alphabet exactly one of `<`, `>`, `==` holds |
| Grouping.JoinLast | rmbconvert/convert.py:98 | appending to the last group keeps the other groups, keeps every group to one or two tokens, and ends the last group with the token |
| Grouping.NewGroup | rmbconvert/convert.py:87 | starting a group keeps the earlier groups and adds a group holding only the token |
| Grouping.PlaceCarry | rmbconvert/convert.py:95-101 | a carry after a lone token fails only with `UnknownUnit`, keeps groups of one or two tokens, keeps all but the last group, adds at most one group, and when it changes anything the token ends the last group |
| Grouping.Step | rmbconvert/convert.py:85-109 | one turn of the grouping loop keeps the same facts for any token |
| Grouping.GroupFrom | rmbconvert/convert.py:85-109 | the rest of the loop fails only with `UnknownUnit`, keeps every group to one or two tokens, and adds at most one group per token |
| Grouping.GroupAll | rmbconvert/convert.py:85-109 | the grouping pass fails only with `UnknownUnit`; its groups hold one or two tokens, are no more than the tokens, and are none exactly when there are no tokens |
| Grouping.GroupTokens | rmbconvert/convert.py:83-109 | the grouping loop returns what `GroupAll` specifies |
| Grouping.CarryPlacement | rmbconvert/convert.py:95-101 | a carry after a lone token joins it when there is no earlier group or the earlier group's last token is larger, starts a group when that token is smaller, is dropped exactly when it is equal, and fails when that token is outside the alphabet |
| Grouping.DigitPlacement | rmbconvert/convert.py:104-109 | a digit after a group whose first token is a carry starts a new group; after a lone non-carry it joins it |
| Reduction.GroupValue | rmbconvert/convert.py:113-117 | computes a group's number: a lone token's number, or the product of a pair's numbers, None when one is missing |
| Reduction.Evaluate | rmbconvert/convert.py:111-118 | evaluation succeeds exactly when every group has a number, keeps one value per group, and each value is its group's number (a lone token's number, a pair's product); it fails only with `NoneArithmetic` |
| Reduction.EvaluateGroups | rmbconvert/convert.py:112-118 | the evaluation loop returns what `Evaluate` specifies |
| Reduction.Anchor | rmbconvert/convert.py:124 | the anchor position holds the maximum of the suffix from `start` |
| Reduction.SuffixAnchor | rmbconvert/convert.py:124 | the suffix-search reading: a position at or after `start` holding that maximum |
| Reduction.AnchorsFrom | rmbconvert/convert.py:121-132 | the anchors the loop picks form a chain that ends at the last position, or the loop fails with `Diverges` |
| Reduction.SuffixAnchorsFrom | rmbconvert/convert.py:121-132 | the suffix search's anchors form such a chain too |
| Reduction.Contribution | rmbconvert/convert.py:125-129 | computes one `mul` entry: the sum since the previous anchor times the anchor, or the anchor alone when that sum is 0 |
| Reduction.Contributions | rmbconvert/convert.py:125-129 | one `mul` entry per anchor |
| Reduction.ReduceFrom | rmbconvert/convert.py:121-134 | the rest of the anchor loop fails only with `Diverges` |
| Reduction.Reduce | rmbconvert/convert.py:120-134 | the anchor loop fails with `EmptyInteger` exactly on an empty list, and otherwise only with `Diverges` |
| Reduction.ReduceFromAnchors | rmbconvert/convert.py:121-134 | closed form: from any `start`, the loop fails exactly when the anchor chain does, and otherwise returns the sum of `mul` so far and one contribution per anchor |
| Reduction.ReduceByAnchors | rmbconvert/convert.py:120-134 | the integer is the sum of one contribution per anchor, or `Diverges` when the anchors step back |
| Reduction.ReduceGroups | rmbconvert/convert.py:120-134 | the `while True` loop returns what `Reduce` specifies |
| Reduction.AnchorCases | rmbconvert/convert.py:124 | the whole-list anchor lies before `start` exactly when the suffix maximum also occurs before `start`; otherwise it is the suffix search's anchor |
| Reduction.DivergenceTrap | rmbconvert/convert.py:123-132 | once the anchor lies before `start`, it does so for every earlier `start` too, so the loop never reaches its exit again |
| Reduction.DistinctAnchor | rmbconvert/convert.py:124 | with distinct values the whole-list anchor is the suffix search's anchor |
| Reduction.DistinctAgrees | rmbconvert/convert.py:121-132 | with distinct values the loop never steps back and picks the suffix search's anchors |
| Reduction.DistinctReduce | rmbconvert/convert.py:120-134 | with distinct values the integer is the suffix search's sum of contributions |
| Reduction.AnchorsAgree | rmbconvert/convert.py:121-132 | whenever the loop does not step back, repeated values or not, it picks exactly the suffix search's anchors |
| Reduction.ReduceAgrees | rmbconvert/convert.py:120-134 | whenever the decoder returns an integer, it is the suffix search's sum of contributions |
| Reduction.RepeatedValueAnchors | rmbconvert/convert.py:121-132 | the list [30, 2, 10^8, 30, 10^4, 5], the group values of 叁拾贰亿叁拾万伍, anchors at 10^8, 10^4 and 5 |
| Reduction.RepeatedValueEnds | rmbconvert/convert.py:120-134 | that list repeats a value and still reduce, to 3200300005 |
| Reduction.AnchorAt | rmbconvert/convert.py:124 | a position that tops the suffix and whose value occurs nowhere before it is the anchor |
| Reduction.FallingAnchor | rmbconvert/convert.py:124-129 | in a strictly falling list each position is its own anchor and adds its own value |
| Reduction.FallingAnchors | rmbconvert/convert.py:121-132 | in a strictly falling list the loop takes every position and its `mul` is the list itself |
| Reduction.FallingReducesToSum | rmbconvert/convert.py:120-134 | a strictly falling list, an amount with no 万 or 亿, reduces to its sum |
| Reduction.DocumentedAnchors | rmbconvert/convert.py:58-63 | the worked example [30, 2, 10^8, 5000, 80, 10^4, 1000, 300, 90] anchors at 10^8, 10^4, 1000, 300 and 90 |
| Reduction.DocumentedContributions | rmbconvert/convert.py:62-63 | its anchors contribute (30+2)·10^8, (5000+80)·10^4, 1000, 300 and 90 |
| Reduction.DocumentedMul | rmbconvert/convert.py:63 | its `mul` list is [3200000000, 50800000, 1000, 300, 90] |
| Reduction.DocumentedReduction | rmbconvert/convert.py:58-64 | the worked example reduces to 3250801390 |
| Reduction.RepeatedValueDiverges | rmbconvert/convert.py:124 | the list [1000, 10, 10^4, 1000, 10], the group values of 壹仟壹拾万壹仟壹拾, steps back, and the loop never exits |
| Decimal.LastDigit | rmbconvert/convert.py:140-145 | computes `mul` after reading a string: the value of its last digit, None when it has none |
| Decimal.CarryTerm | rmbconvert/convert.py:147-149 | computes what one character adds: a carry times the last digit, 0 for any other character |
| Decimal.Term | rmbconvert/convert.py:147-149 | computes what the character at a position adds, with `mul` read from the characters before it |
| Decimal.FractionSum | rmbconvert/convert.py:139-149 | computes `result` after the first n characters: their terms added left to right |
| Decimal.LastDigitNone | rmbconvert/convert.py:140-145 | `mul` is still None exactly when no digit has been read |
| Decimal.LastDigitIsLast | rmbconvert/convert.py:142-145 | otherwise `mul` is the value of the last digit read |
| Decimal.DecimalValue | rmbconvert/convert.py:137-151 | the fraction fails with `NotIterable` exactly when there is none, and with `NoneArithmetic` exactly when a carry comes before any digit |
| Decimal.ConvertDecimal | rmbconvert/convert.py:137-151 | the character loop returns what `DecimalValue` specifies |
| Decimal.FractionSumPrefix | rmbconvert/convert.py:142-149 | characters read later do not change the total so far |
| Decimal.OrphanAppend | rmbconvert/convert.py:147-149 | one more character makes the fraction fail exactly when it is a carry and no digit came before it |
| Decimal.DecimalAppend | rmbconvert/convert.py:142-149 | reading one more character: a failure stays a failure, a carry with no digit before it fails, and otherwise the character's term is added |
| Decimal.AppendNonCarry | rmbconvert/convert.py:142-149 | a digit, 整 or any other non-carry changes neither the value nor whether the fraction fails; a digit with no later carry adds nothing |
| Decimal.LeadingCarryFails | rmbconvert/convert.py:140-149 | a carry before any digit fails, as `None * carry` does |
| Decimal.NoFractionIsZero | rmbconvert/convert.py:139-151 | an empty fraction and 整 alone are worth 0 |
| Decimal.JiaoFen | rmbconvert/convert.py:142-149 | d1角d2分 is worth d1 tenths plus d2 hundredths |
| Decimal.DigitReused | rmbconvert/convert.py:144-149 | a carry reuses the last digit: 伍角分 is 0.55 |
| Traditional.SplitYuan | rmbconvert/convert.py:68-70 | the split fails, with `TooManyYuan`, exactly when 元 occurs twice; with no 元 the whole string is the integer part and there is no fraction; otherwise the amount is the integer part, 元 and the fraction, neither part holding 元 |
| Traditional.SplitAtFirst | rmbconvert/convert.py:68-70 | joining a part without 元, 元 and a rest splits back into those two parts, unless the rest holds 元 |
| Traditional.RemoveZeros | rmbconvert/convert.py:72 | computes `replace("零", "")`: the string with every 零 dropped |
| Traditional.RemoveZerosKeeps | rmbconvert/convert.py:72 | `replace("零", "")` leaves no 零 and keeps every other character as often as it occurred |
| Traditional.NoZeroUnchanged | rmbconvert/convert.py:72 | a string without 零 is left as it is |
| Traditional.RemoveZerosAppend | rmbconvert/convert.py:72 | removing 零 from a concatenation removes it from each part |
| Traditional.Tokens | rmbconvert/convert.py:82 | one token per character, each what the constructor builds from it |
| Traditional.IntegerValue | rmbconvert/convert.py:80-134 | the integer part fails with `EmptyInteger` exactly when it is empty, and otherwise only with `UnknownUnit`, `NoneArithmetic` or `Diverges` |
| Traditional.ConvertInteger | rmbconvert/convert.py:80-134 | the token list, grouping, evaluation and anchor loops together return what `IntegerValue` specifies |
| Traditional.ToNumber | rmbconvert/convert.py:68-77 | two 元 fail with `TooManyYuan`; `EmptyInteger` exactly when nothing is left of the integer part once 零 is dropped; no 元 always fails; a success has exactly one 元 |
| Traditional.ConvertToNumber | rmbconvert/convert.py:68-77 | `to_number` as the source runs it returns what `ToNumber` specifies |
| Traditional.ZeroYuanFails | rmbconvert/convert.py:72-75 | 零元整 fails with `EmptyInteger` |
| Traditional.SameParts | rmbconvert/convert.py:68-77 | two amounts whose splits agree up to 零 in the integer part decode alike |
| Traditional.ZeroInsensitive | rmbconvert/convert.py:68-75 | inserting 零 anywhere before 元 changes neither the result nor the failure |
| Traditional.ZeroDropped | rmbconvert/convert.py:72 | a 零 inserted into the integer part is removed again |
| Walkthrough.ExampleSplit | rmbconvert/convert.py:68-70 | 伍佰叁拾玖万零贰拾壹元叁角伍分 splits into 伍佰叁拾玖万零贰拾壹 and 叁角伍分 |
| Walkthrough.ExampleZeros | rmbconvert/convert.py:72 | its integer part loses its one 零, leaving 伍佰叁拾玖万贰拾壹 |
| Walkthrough.ExampleGrouping | rmbconvert/convert.py:83-109 | the tokens of 伍佰叁拾玖万贰拾壹 group as [伍佰] [叁拾] [玖] [万] [贰拾] [壹] |
| Walkthrough.ExampleEvaluation | rmbconvert/convert.py:111-118 | those groups are worth [500, 30, 9, 10^4, 20, 1] |
| Walkthrough.ExampleAnchors | rmbconvert/convert.py:121-132 | the anchor loop on those values picks 10^4, 20 and 1 |
| Walkthrough.ExampleReduction | rmbconvert/convert.py:120-134 | those values reduce to (500+30+9)·10^4 + 20 + 1 = 5390021 |
| Walkthrough.ExampleInteger | rmbconvert/convert.py:80-134 | the integer decoder turns 伍佰叁拾玖万贰拾壹 into 5390021 |
| Walkthrough.ExampleFraction | rmbconvert/convert.py:137-151 | the fraction 叁角伍分 is worth 0.35 |
| Walkthrough.ExampleAmount | rmbconvert/convert.py:56-77 | the documented example 伍佰叁拾玖万零贰拾壹元叁角伍分 decodes to 5390021.35 |

## Left out

- Floating point: numbers are exact reals, so the binary rounding of `result += mul * carry` and of float products is not modelled.
- The `constants` module is not part of this model. The two tables the decoder reads, `UNIT_UPPER` and `DIGIT_UPPER`, are declared here with the values listed above.
- `__str__` and `__repr__` are display only.
- The `isinstance(unit, str)` test of the constructor: arguments are strings by type.
- `__eq__` against a plain string: the decoder's own comparisons are of this kind (`instance in list(UNIT_UPPER.keys())`, `other not in self.units`, `self.units.index(other)`). The model renders each as membership or search of the token's `value` character; `Equal` models only token-to-token `==`, as in the docstring's 伍 == 伍.
- The branch for an empty last group (rmbconvert/convert.py:90-92): groups are never empty, which `WellSized` states, so `Step` has no such case.
- The encoder (number to formal string), the normaliser and `to_normal`: they are not in the modelled source.
- test.py: a printing demo with no assertions.
- Reduction.AnchorsFrom: the source's loop does not terminate when it steps back; the model returns `Err(Diverges)` at the first step back, and `DivergenceTrap` shows the source cannot exit from there.
- Reduction.ReduceGroups: the same; it returns `Err(Diverges)` where the source loops forever.
- Reduction.EvaluateGroups: the source overwrites `groups[index]` in place, changing the element type of the list; the model builds the numbers in a second list.
- Reduction.Evaluate: a lone token with no number is stored as None by the source and only fails at the next `max` or `sum`; the model fails with `NoneArithmetic` at once, the same exception kind with nothing in between.
