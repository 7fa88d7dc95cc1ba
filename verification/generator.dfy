/**
  `NumberGenerator`: a seed and a counter `state`. Every draw reads the sine
  of the current state, keeps the fractional part of ten thousand times it,
  and then advances the state by one. The state can be exported as decimal
  text and recovered later, either from such text or from arbitrary text.

  The generator is an immutable value here: each operation returns the
  generator it leaves behind. `Math.sin` is a parameter `sin` (the value the
  host returns for each integer) and `Date.now()` is a parameter `now`.
 */
module RecoverableRandom {
  import opened JsText
  import opened NumberText

  datatype NumberGenerator = NumberGenerator(seed: int, state: int)

  /** The constructor's optional argument: absent, a number or a string. */
  datatype SeedArg = NoSeed | NumberSeed(n: int) | StringSeed(s: JsString)

  /** JavaScript falsiness of the argument: absent, 0 or "". */
  function Falsy(arg: SeedArg): (b: bool)
    ensures arg.NoSeed? ==> b
    ensures arg.NumberSeed? ==> (b <==> arg.n == 0)
    ensures arg.StringSeed? ==> (b <==> |arg.s| == 0)
  {
    arg.NoSeed? || arg == NumberSeed(0) || arg == StringSeed([])
  }

  /** `stringToSeed`: the sum of the code units, added in order. */
  function StringToSeed(s: JsString): (r: nat)
    ensures r <= 0xFFFF * |s|
  {
    if |s| == 0 then 0 else StringToSeed(s[..|s| - 1]) + s[|s| - 1]
  }

  lemma {:induction false} StringToSeedAppend(a: JsString, b: JsString)
    ensures StringToSeed(a + b) == StringToSeed(a) + StringToSeed(b)
    decreases |b|
  {
    if |b| == 0 {
      assert a + b == a;
    } else {
      assert (a + b)[..|a + b| - 1] == a + b[..|b| - 1];
      StringToSeedAppend(a, b[..|b| - 1]);
    }
  }

  /** The constructor: a falsy argument is replaced by the clock, a string
      goes through `StringToSeed`, a number is taken as it is; the state
      starts at the seed. */
  function New(arg: SeedArg, now: int): (g: NumberGenerator)
    ensures g.state == g.seed
    ensures Falsy(arg) ==> g.seed == now
    ensures arg.NumberSeed? && arg.n != 0 ==> g.seed == arg.n
    ensures arg.StringSeed? && arg.s != [] ==> g.seed == StringToSeed(arg.s)
  {
    var resolved := if Falsy(arg) then NumberSeed(now) else arg;
    var seed := match resolved
      case StringSeed(s) => StringToSeed(s)
      case NumberSeed(n) => n
      case NoSeed => now;
    NumberGenerator(seed, seed)
  }

  /** The fractional part of `sin(n) * 10000`, over exact reals. */
  function UnitDraw(sin: int -> real, n: int): (u: real)
    ensures 0.0 <= u < 1.0
    ensures sin(n) * 10000.0 - u == (sin(n) * 10000.0 - u).Floor as real
  {
    var x := sin(n) * 10000.0;
    x - x.Floor as real
  }

  /** A value together with the generator left behind after producing it. */
  datatype Drawn<T> = Drawn(value: T, next: NumberGenerator)

  /** `generateRandomNumber`: draw at the current state, then advance it. */
  function GenerateRandomNumber(g: NumberGenerator, sin: int -> real): (r: Drawn<real>)
    ensures 0.0 <= r.value < 1.0
    ensures r.next.seed == g.seed && r.next.state == g.state + 1
    ensures r.value == UnitDraw(sin, r.next.state - 1)
  {
    Drawn(UnitDraw(sin, g.state), g.(state := g.state + 1))
  }

  predicate IsIntegral(x: real) {
    x == x.Floor as real
  }

  /** `min + (max - min) * u`: the unit draw mapped affinely onto the range. */
  function Scale(min: real, max: real, u: real): (v: real)
    requires 0.0 <= u < 1.0
    ensures min < max ==> min <= v < max
    ensures max < min ==> max < v <= min
    ensures min == max ==> v == min
  {
    var range := max - min;
    var gap := range * (1.0 - u);
    assert range * u + gap == range;
    assert range > 0.0 ==> gap > 0.0 && range * u >= 0.0;
    assert range < 0.0 ==> (-range) * (1.0 - u) > 0.0 && (-range) * u >= 0.0;
    min + range * u
  }

  /** `random`'s result for one unit draw: the scaled value, floored unless
      `isFloat`. */
  function Rescale(min: real, max: real, u: real, isFloat: bool): (r: real)
    requires 0.0 <= u < 1.0
    ensures !isFloat ==> IsIntegral(r)
    ensures isFloat && min < max ==> min <= r < max
    ensures isFloat && max < min ==> max < r <= min
    ensures min == max ==> r == (if isFloat then min else min.Floor as real)
    ensures !isFloat && min < max ==> min.Floor as real <= r < max
    ensures !isFloat && min < max && IsIntegral(min) && IsIntegral(max) ==> min <= r <= max - 1.0
  {
    var value := Scale(min, max, u);
    if isFloat then value
    else if min < max then
      FloorBounds(min, max, value);
      value.Floor as real
    else value.Floor as real
  }

  lemma FloorBounds(min: real, max: real, value: real)
    requires min <= value < max
    ensures min.Floor as real <= value.Floor as real < max
    ensures IsIntegral(min) && IsIntegral(max) ==> min <= value.Floor as real <= max - 1.0
  {
    assert min.Floor <= value.Floor;
    if IsIntegral(max) {
      assert value.Floor < max.Floor;
    }
  }

  /** `random(min, max, isFloat)`: one draw, rescaled. */
  function Random(g: NumberGenerator, sin: int -> real, min: real, max: real, isFloat: bool): (r: Drawn<real>)
    ensures r.next.seed == g.seed && r.next.state == g.state + 1
    ensures r.value == Rescale(min, max, UnitDraw(sin, r.next.state - 1), isFloat)
    ensures !isFloat ==> IsIntegral(r.value)
    ensures isFloat && min < max ==> min <= r.value < max
    ensures !isFloat && min < max && IsIntegral(min) && IsIntegral(max) ==> min <= r.value <= max - 1.0
  {
    var d := GenerateRandomNumber(g, sin);
    Drawn(Rescale(min, max, d.value, isFloat), d.next)
  }

  /** `getStateCode`: the state as decimal text. */
  function GetStateCode(g: NumberGenerator): (code: JsString)
    ensures |code| > 0
    ensures ParseInt(code) == Value(g.state)
  {
    ParseRenderRoundTrip(g.state);
    Render(g.state)
  }

  /** `recoverState(code)`: the state becomes `parseInt(code)`, or the code-unit
      sum of `code` when that is NaN; the seed is kept. */
  function RecoverState(g: NumberGenerator, code: JsString): (h: NumberGenerator)
    ensures h.seed == g.seed
    ensures ParseInt(code).Value? ==> h.state == ParseInt(code).n
    ensures ParseInt(code).NaN? ==> h.state == StringToSeed(code)
  {
    match ParseInt(code)
    case Value(n) => g.(state := n)
    case NaN => g.(state := StringToSeed(code))
  }

  /** A call a caller can make on a generator. */
  datatype Call =
    | RandomCall(min: real, max: real, isFloat: bool)
    | StateCodeCall
    | RecoverCall(code: JsString)

  /** What a call returns (`recoverState` returns nothing). */
  datatype Output = Number(x: real) | Code(s: JsString) | NoOutput

  datatype Trace = Trace(outputs: seq<Output>, final: NumberGenerator)

  function Step(g: NumberGenerator, sin: int -> real, c: Call): Drawn<Output> {
    match c
    case RandomCall(min, max, isFloat) =>
      var r := Random(g, sin, min, max, isFloat);
      Drawn(Number(r.value), r.next)
    case StateCodeCall => Drawn(Code(GetStateCode(g)), g)
    case RecoverCall(code) => Drawn(NoOutput, RecoverState(g, code))
  }

  /** The outputs of a sequence of calls made in order on one generator. */
  function Run(g: NumberGenerator, sin: int -> real, calls: seq<Call>): (t: Trace)
    ensures |t.outputs| == |calls|
    ensures t.final.seed == g.seed
    decreases |calls|
  {
    if |calls| == 0 then Trace([], g)
    else
      var first := Step(g, sin, calls[0]);
      var rest := Run(first.next, sin, calls[1..]);
      Trace([first.value] + rest.outputs, rest.final)
  }

  /** Number of draws in a call sequence. */
  function Draws(calls: seq<Call>): nat {
    if |calls| == 0 then 0
    else (if calls[0].RandomCall? then 1 else 0) + Draws(calls[1..])
  }

  /** Without recovery, the state counts the draws: each `random` adds exactly
      one and `getStateCode` adds nothing. */
  lemma {:induction false} RunCountsDraws(g: NumberGenerator, sin: int -> real, calls: seq<Call>)
    requires forall i :: 0 <= i < |calls| ==> !calls[i].RecoverCall?
    ensures Run(g, sin, calls).final.state == g.state + Draws(calls)
    decreases |calls|
  {
    if |calls| > 0 {
      RunCountsDraws(Step(g, sin, calls[0]).next, sin, calls[1..]);
    }
  }

  /** Determinism: the outputs and the final state depend on the state alone,
      not on the seed. */
  lemma {:induction false} RunDeterministic(g1: NumberGenerator, g2: NumberGenerator, sin: int -> real, calls: seq<Call>)
    requires g1.state == g2.state
    ensures Run(g1, sin, calls).outputs == Run(g2, sin, calls).outputs
    ensures Run(g1, sin, calls).final.state == Run(g2, sin, calls).final.state
    decreases |calls|
  {
    if |calls| > 0 {
      var s1 := Step(g1, sin, calls[0]);
      var s2 := Step(g2, sin, calls[0]);
      assert s1.value == s2.value && s1.next.state == s2.next.state;
      RunDeterministic(s1.next, s2.next, sin, calls[1..]);
    }
  }

  /** Exporting the state code of `g` and recovering it into any generator `h`
      makes `h` answer every later sequence of calls exactly as `g` does. */
  lemma RecoveredRunsCoincide(g: NumberGenerator, h: NumberGenerator, sin: int -> real, calls: seq<Call>)
    ensures RecoverState(h, GetStateCode(g)).state == g.state
    ensures Run(RecoverState(h, GetStateCode(g)), sin, calls).outputs == Run(g, sin, calls).outputs
  {
    RunDeterministic(RecoverState(h, GetStateCode(g)), g, sin, calls);
  }

  /** Recovering from non-numeric, non-empty text gives the state a fresh
      generator seeded with that text starts from, and the same later outputs. */
  lemma TextRecoveryMatchesStringSeed(h: NumberGenerator, s: JsString, now: int, sin: int -> real, calls: seq<Call>)
    requires s != [] && ParseInt(s).NaN?
    ensures RecoverState(h, s).state == New(StringSeed(s), now).state
    ensures Run(RecoverState(h, s), sin, calls).outputs == Run(New(StringSeed(s), now), sin, calls).outputs
  {
    RunDeterministic(RecoverState(h, s), New(StringSeed(s), now), sin, calls);
  }

  /** Recovering from the empty string sets the state to 0 (`parseInt("")` is
      NaN and the empty sum is 0), whereas the constructor treats "" as falsy
      and takes the clock. */
  lemma RecoverFromEmptyText(h: NumberGenerator, now: int)
    ensures RecoverState(h, []).state == 0
    ensures New(StringSeed([]), now).state == now
  {
  }

  /** The recovery scenario with text "test": a fresh clock-seeded generator
      recovered from "test" continues like `new NumberGenerator("test")`,
      whose seed is 116 + 101 + 115 + 116 = 448. */
  lemma TestTextScenario(now: int, sin: int -> real, calls: seq<Call>)
    ensures New(StringSeed(Lit("test")), now).seed == 448
    ensures Run(RecoverState(New(NoSeed, now), Lit("test")), sin, calls).outputs
         == Run(New(StringSeed(Lit("test")), now), sin, calls).outputs
  {
    var t := Lit("test");
    assert t[0] == 116 && t[1] == 101 && t[2] == 115 && t[3] == 116;
    assert t == [116, 101, 115, 116];
    assert StringToSeed(t[..1]) == 116 by {
      assert t[..1][..0] == [];
    }
    assert StringToSeed(t[..2]) == 217 by {
      assert t[..2][..1] == t[..1];
    }
    assert StringToSeed(t[..3]) == 332 by {
      assert t[..3][..2] == t[..2];
    }
    assert t[..4][..3] == t[..3] && t[..4] == t;
    ParseNaNWithoutDigits(t);
    TextRecoveryMatchesStringSeed(New(NoSeed, now), t, now, sin, calls);
  }
}
