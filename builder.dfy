/** `NumbersBuilder`, a result builder over `Int`: the static functions Swift
    calls when it turns the statements of a `@NumbersBuilder` body into one
    `[Int]`, and the body of `numbersMadeViaBuilder` put together from them. */
module NumbersBuilder {
  import opened Colors

  const Int64Min: int := -0x8000_0000_0000_0000
  const Int64Max: int := 0x7fff_ffff_ffff_ffff

  // ------------------------------------------------------------------
  // Blocks

  /** `buildBlock(_ components: Int...)` */
  function BuildBlock(components: seq<int>): seq<int> {
    components
  }

  /** `buildPartialBlock(first:)` */
  function BuildPartialBlockFirst(first: int): seq<int> {
    [first]
  }

  /** `buildPartialBlock(accumulated:next:)` */
  function BuildPartialBlockNext(accumulated: seq<int>, next: int): seq<int> {
    accumulated + [next]
  }

  /** How a block of `n` statements is put together when partial blocks are
      available: `first:` on the first value, then `accumulated:next:` once for
      each later value. */
  function PartialBlocks(values: seq<int>): seq<int>
    requires values != []
  {
    if |values| == 1 then BuildPartialBlockFirst(values[0])
    else BuildPartialBlockNext(PartialBlocks(values[..|values| - 1]), values[|values| - 1])
  }

  /** Folding the partial blocks gives the values in source order, the same
      array `buildBlock` returns for them. */
  lemma {:induction false} PartialBlocksKeepOrder(values: seq<int>)
    requires values != []
    ensures PartialBlocks(values) == BuildBlock(values)
    decreases |values|
  {
    if |values| > 1 {
      PartialBlocksKeepOrder(values[..|values| - 1]);
      assert values[..|values| - 1] + [values[|values| - 1]] == values;
    }
  }

  // ------------------------------------------------------------------
  // Expressions

  /** `buildExpression(_ expression: Int)` */
  function BuildExpressionInt(expression: int): int {
    expression
  }

  predicate IsDigit(c: char) {
    '0' <= c <= '9'
  }

  predicate AllDigits(s: string) {
    forall i :: 0 <= i < |s| ==> IsDigit(s[i])
  }

  function DigitsValue(s: string): nat
    requires AllDigits(s)
  {
    if s == [] then 0
    else
      assert IsDigit(s[|s| - 1]);
      DigitsValue(s[..|s| - 1]) * 10 + (s[|s| - 1] as int - '0' as int)
  }

  /** `Int(_ description: String)`: an optional sign, then one or more ASCII
      digits, for a value that fits in 64 bits; nothing else parses. */
  function ParseInt(s: string): (r: Option<int>)
    ensures r.Some? ==> Int64Min <= r.value <= Int64Max
  {
    if s == [] then None
    else
      var body := if s[0] == '-' || s[0] == '+' then s[1..] else s;
      if body == [] || !AllDigits(body) then None
      else
        var v: int := if s[0] == '-' then -(DigitsValue(body) as int) else DigitsValue(body);
        if Int64Min <= v <= Int64Max then Some(v) else None
  }

  /** `buildExpression(_ expression: String)`: the parsed number, 5 when the
      string is not one. */
  function BuildExpressionString(expression: string): int {
    var parsed := ParseInt(expression);
    if parsed.Some? then parsed.value else 5
  }

  /** Decimal digits of a natural number. */
  function ShowNat(n: nat): (s: string)
    ensures s != [] && AllDigits(s)
    decreases n
  {
    if n < 10 then [('0' as int + n) as char] else ShowNat(n / 10) + [('0' as int + n % 10) as char]
  }

  /** `String(n)` */
  function ShowInt(n: int): string {
    if n < 0 then "-" + ShowNat(-n) else ShowNat(n)
  }

  lemma {:induction false} ShowNatValue(n: nat)
    ensures DigitsValue(ShowNat(n)) == n
    decreases n
  {
    var s := ShowNat(n);
    if n < 10 {
      assert s[..0] == [];
    } else {
      assert s[..|s| - 1] == ShowNat(n / 10);
      ShowNatValue(n / 10);
    }
  }

  /** Every 64-bit number string converts back to its number, so the
      fallback 5 is used exactly for strings that are not such numbers. */
  lemma ParseShowInt(n: int)
    requires Int64Min <= n <= Int64Max
    ensures ParseInt(ShowInt(n)) == Some(n)
    ensures BuildExpressionString(ShowInt(n)) == n
  {
    if n < 0 {
      ShowNatValue(-n);
      ParseNegative(ShowNat(-n));
    } else {
      ShowNatValue(n);
      ParseUnsigned(ShowNat(n));
    }
  }

  lemma ParseUnsigned(s: string)
    requires s != [] && AllDigits(s) && DigitsValue(s) <= Int64Max
    ensures ParseInt(s) == Some(DigitsValue(s) as int)
  {
    assert IsDigit(s[0]);
  }

  lemma ParseNegative(s: string)
    requires s != [] && AllDigits(s) && -(DigitsValue(s) as int) >= Int64Min
    ensures ParseInt("-" + s) == Some(-(DigitsValue(s) as int))
  {
    assert ("-" + s)[1..] == s;
  }

  lemma UnsignedNonDigit(s: string, k: nat)
    requires k < |s| && !IsDigit(s[k]) && s[0] != '-' && s[0] != '+'
    ensures ParseInt(s) == None
  {
  }

  /** Strings that are not numbers fall back to 5: the empty string, a lone
      sign, and a digit with a space beside it. */
  lemma BuildExpressionStringFallback()
    ensures BuildExpressionString("") == 5
    ensures BuildExpressionString("-") == 5 && BuildExpressionString("+") == 5
    ensures BuildExpressionString(" 4") == 5 && BuildExpressionString("4 ") == 5
  {
    assert "-"[1..] == [];
    assert "+"[1..] == [];
    var spaced := " 4";
    assert spaced[0] == ' ';
    UnsignedNonDigit(spaced, 0);
    spaced := "4 ";
    assert spaced[0] == '4' && spaced[1] == ' ';
    UnsignedNonDigit(spaced, 1);
  }

  /** A signed or unsigned digit string is its number: "4", "+4" and "-4". */
  lemma BuildExpressionStringSigns()
    ensures BuildExpressionString("4") == 4
    ensures BuildExpressionString("+4") == 4
    ensures BuildExpressionString("-4") == -4
  {
    var four := "4";
    assert four[..0] == [] && four[0] == '4';
    assert DigitsValue(four) == 4;
    assert ParseInt(four) == Some(4);
    assert "+4"[1..] == four;
    assert "-4"[1..] == four;
  }

  // ------------------------------------------------------------------
  // Conditionals and availability

  /** The first element, 0 when there is none. */
  function FirstOrZero(component: seq<int>): int {
    if component == [] then 0 else component[0]
  }

  /** `buildOptional(_:)`: `component?.first ?? 0` */
  function BuildOptional(component: Option<seq<int>>): int {
    if component.Some? then FirstOrZero(component.value) else 0
  }

  /** `buildEither(first:)` */
  function BuildEitherFirst(component: seq<int>): int {
    FirstOrZero(component)
  }

  /** `buildEither(second:)` */
  function BuildEitherSecond(component: seq<int>): int {
    FirstOrZero(component)
  }

  /** Both branches of an `if`/`else` and a taken `if` give the block's first
      value, 0 for an empty block; an `if` not taken gives 0. */
  lemma ConditionalsAgree(component: seq<int>)
    ensures BuildEitherFirst(component) == BuildEitherSecond(component) == BuildOptional(Some(component))
    ensures BuildOptional(None) == 0
    ensures component == [] ==> BuildOptional(Some(component)) == 0
    ensures component != [] ==> BuildOptional(Some(component)) == component[0]
  {
  }

  /** `buildLimitedAvailability(_:)` */
  function BuildLimitedAvailability(component: seq<int>): seq<int> {
    component
  }

  // ------------------------------------------------------------------
  // Loops and the final result

  /** `reduce(0, +)` */
  function Sum(values: seq<int>): int {
    if values == [] then 0 else Sum(values[..|values| - 1]) + values[|values| - 1]
  }

  /** `buildArray(_:)`: `components.flatMap { $0 }.reduce(0, +)` */
  function BuildArray(components: seq<seq<int>>): int {
    Sum(Flatten(components))
  }

  lemma {:induction false} SumAppend(a: seq<int>, b: seq<int>)
    ensures Sum(a + b) == Sum(a) + Sum(b)
    decreases |b|
  {
    if b == [] {
      assert a + b == a;
    } else {
      assert (a + b)[..|a + b| - 1] == a + b[..|b| - 1];
      SumAppend(a, b[..|b| - 1]);
    }
  }

  /** The sum of the loop bodies' sums. */
  function SumOfSums(components: seq<seq<int>>): int {
    if components == [] then 0 else Sum(components[0]) + SumOfSums(components[1..])
  }

  /** `buildArray` adds up every value of every iteration: it is the sum of
      the iterations' sums, and one more iteration adds its own sum. */
  lemma {:induction false} BuildArraySums(components: seq<seq<int>>, more: seq<int>)
    ensures BuildArray(components) == SumOfSums(components)
    ensures BuildArray(components + [more]) == BuildArray(components) + Sum(more)
    decreases |components|
  {
    if components != [] {
      BuildArraySums(components[1..], more);
      SumAppend(components[0], Flatten(components[1..]));
      assert (components + [more])[1..] == components[1..] + [more];
      SumAppend(components[0], Flatten(components[1..] + [more]));
    } else {
      assert [] + [more] == [more];
      assert [more][1..] == [];
      assert more + [] == more;
    }
  }

  /** The loop `for i in 5...7 { i }` gives 18. */
  lemma BuildArrayExample()
    ensures BuildArray([[5], [6], [7]]) == 18
  {
    BuildArraySums([[5], [6], [7]], []);
    assert [[5], [6], [7]][1..] == [[6], [7]];
    assert [[6], [7]][1..] == [[7]];
    assert [[7]][1..] == [];
    assert [5][..0] == [] && [6][..0] == [] && [7][..0] == [];
  }

  /** `buildFinalResult(_:)`: a copy of the block with 100 appended. */
  function BuildFinalResult(component: seq<int>): (r: seq<int>)
    ensures |r| == |component| + 1
    ensures r[..|component|] == component && r[|component|] == 100
  {
    component + [100]
  }

  // ------------------------------------------------------------------
  // numbersMadeViaBuilder

  /** The body of `numbersMadeViaBuilder` as Swift expands it, with the
      condition of its `if` as a parameter (it is `false` there): the values 1,
      2, 3, the `if` block holding `"4"`, and the `for i in 5...7 { i }` loop,
      folded with partial blocks and finished. */
  function NumbersMadeViaBuilder(condition: bool): seq<int> {
    var ifBlock := PartialBlocks([BuildExpressionString("4")]);
    var optional := BuildOptional(if condition then Some(ifBlock) else None);
    var loop := BuildArray(seq(3, i requires 0 <= i < 3 => PartialBlocks([BuildExpressionInt(5 + i)])));
    BuildFinalResult(PartialBlocks([BuildExpressionInt(1), BuildExpressionInt(2), BuildExpressionInt(3), optional, loop]))
  }

  /** The view shows [1, 2, 3, 0, 18, 100]; with a true condition the 0 would
      be 4. */
  lemma NumbersMadeViaBuilderValue(condition: bool)
    ensures NumbersMadeViaBuilder(condition) == [1, 2, 3, if condition then 4 else 0, 18, 100]
  {
    BuildExpressionStringSigns();
    var loop := seq(3, i requires 0 <= i < 3 => PartialBlocks([BuildExpressionInt(5 + i)]));
    assert loop == [[5], [6], [7]];
    BuildArrayExample();
    var values := [1, 2, 3, if condition then 4 else 0, 18];
    PartialBlocksKeepOrder(values);
  }
}
