# recoverable-random, modelled in Dafny

This project models the two pieces of `recoverable-random`:

- **`NumberGenerator`** (`src/index.ts`). This is a pseudorandom generator made of a `seed` and a counter `state`. Each `random(min, max, isFloat)` call does three things:
  - it takes the fractional part of `Math.sin(state) * 10000`;
  - it advances `state` by one;
  - it maps the draw affinely onto `[min, max)`, flooring the result unless `isFloat` is set.

  `getStateCode()` exports `state` as decimal text. `recoverState(code)` sets `state` to `parseInt(code)`. When that is NaN, it uses the sum of the code's UTF-16 code units instead, which is the same sum the constructor uses for string seeds.
- **`generateShortNumericHash`** (`src/utils.ts`). This is an 18-digit decimal fingerprint of a string, built in four steps:
  - the four signed 32-bit MD5 words are XOR-folded pairwise into 2 bytes;
  - the string length follows as 4 big-endian bytes;
  - each of these 6 bytes is written as 3 zero-padded decimal digits;
  - a length of 2^32 or more raises the `RangeError` of `writeUInt32BE`.

Modules:

| file | module | contents |
|---|---|---|
| `js_text.dfy` | `JsText` | JavaScript strings as sequences of UTF-16 code units, digit values, `padStart` |
| `number_text.dfy` | `NumberText` | `Number.prototype.toString` on integers and `parseInt` with no radix |
| `bits.dfy` | `Bits` | ToInt32, ToUint32, ToUint8 and 32-bit `^` over unbounded integers |
| `generator.dfy` | `RecoverableRandom` | the generator as an immutable `{seed, state}` value, and runs of call sequences |
| `short_hash.dfy` | `ShortHash` | the fold, the big-endian length, the digit rendering and its decoding |

Inputs that the code takes from its environment are explicit parameters:
- `Math.sin` is a parameter `sin: int -> real`.
- `Date.now()` is a parameter `now: int`.
- The MD5 library is a parameter `md5: JsString -> Digest`, where `Digest` is four `Int32` words.

All arithmetic is exact. Seeds and states are `int`, and `min`, `max` and the drawn values are `real`.

Two facts about the code shape the model:
- String seeds are the code-unit sum (`stringToSeed`). The generator never calls the digest hash.
- The fold produces 2 bytes, because the digest's `Int32Array` has 4 elements and the fold buffer is allocated at half that length. The hash is therefore 18 digits.

## Model

| member | source | states |
|---|---|---|
| `RecoverableRandom.Falsy` | src/index.ts:14 | `!seed` holds for an absent argument, for the number 0 and for the empty string, and for no other argument |
| `RecoverableRandom.StringToSeed` | src/index.ts:30-36 | the code-unit sum of a string lies between 0 and 65535 times its length |
| `RecoverableRandom.StringToSeedAppend` | src/index.ts:30-36 | the seed of a concatenation is the sum of the seeds of its parts |
| `RecoverableRandom.New` | src/index.ts:13-22 | the state starts at the seed; absent, 0 and "" take the clock; other numbers are kept; other strings are summed |
| `RecoverableRandom.UnitDraw` | src/index.ts:43-44 | the draw lies in [0, 1) and differs from `sin(state) * 10000` by an integer, so it is that number's fractional part |
| `RecoverableRandom.GenerateRandomNumber` | src/index.ts:42-45 | the draw lies in [0, 1) and is taken at the state before the increment; the state grows by exactly 1 and the seed is kept |
| `RecoverableRandom.Scale` | src/index.ts:55-56 | `min + (max - min) * u` lies in [min, max) when min < max, in (max, min] when max < min, and equals min when they are equal |
| `RecoverableRandom.Rescale` | src/index.ts:54-61 | integer mode yields an integral value; for integral min < max it lies in [min, max - 1]; float mode lies in [min, max) |
| `RecoverableRandom.Random` | src/index.ts:54-61 | one call advances the state by exactly 1 and keeps the seed; its value is the rescaled draw taken at the state before the increment, and obeys the range bounds of both modes |
| `RecoverableRandom.GetStateCode` | src/index.ts:68-70 | the code is non-empty text that `parseInt` reads back as exactly the state |
| `RecoverableRandom.RecoverState` | src/index.ts:76-80 | the seed is kept; the state becomes the parsed integer, or the code-unit sum when parsing gives NaN |
| `RecoverableRandom.Run` | src/index.ts:42-80 | a run of calls returns one output per call and never changes the seed |
| `RecoverableRandom.RunCountsDraws` | src/index.ts:43 | without recovery, the final state is the initial state plus the number of `random` calls |
| `RecoverableRandom.RunDeterministic` | src/index.test.ts:6-12 | two generators with equal states give equal outputs and end in equal states for every call sequence |
| `RecoverableRandom.RecoveredRunsCoincide` | src/index.test.ts:64-72 | recovering the exported code of `g` into any generator restores `g`'s state and reproduces all of `g`'s later outputs |
| `RecoverableRandom.TextRecoveryMatchesStringSeed` | src/index.ts:76-80 | recovering from non-empty text that parses to NaN gives the state of a generator constructed from that text, and the same later outputs |
| `RecoverableRandom.RecoverFromEmptyText` | src/index.ts:76-80 | recovering from "" sets the state to 0, while constructing from "" takes the clock |
| `RecoverableRandom.TestTextScenario` | src/index.test.ts:74-81 | the seed of "test" is 448, and a clock-seeded generator recovered from "test" continues like one constructed from "test" |
| `NumberText.RenderNat` | src/index.ts:69 | the rendering is a non-empty digit string without a leading zero, and its decimal value is the number |
| `NumberText.Render` | src/index.ts:69 | the text starts with '-' exactly for negative numbers; the remaining digits have the magnitude as their value and have no leading zero unless the number is 0 |
| `NumberText.TrimStart` | src/index.ts:77 | the result is a suffix of the input; everything dropped is white space; the result does not start with white space |
| `NumberText.DigitRun` | src/index.ts:77 | the prefix of that length consists of radix digits, and the code unit after it is not one |
| `NumberText.ScanPrelude` | src/index.ts:77 | `parseInt`'s steps before the digits: after leading white space is dropped, the result is negative exactly when the text starts with '-'; one '+' or '-' is skipped; the radix is 16 exactly when the unsigned text starts with "0x"/"0X", and then those two units are skipped; the digits are read from the suffix that remains |
| `NumberText.ParseInt` | src/index.ts:77 | ECMA-262 `parseInt` with no radix: NaN exactly when the text after white space, one sign and an optional 0x/0X does not start with a digit of the radix; a negative result needs a '-' sign, and a '-' sign never gives a positive result; `NumberText.ParseDecimal` gives its value on decimal text |
| `NumberText.ParseDecimal` | src/index.ts:77 | for any white space, an optional '+' or '-', a non-empty digit string that does not begin a "0x" prefix and text that does not continue it, `parseInt` gives the digits' decimal value, negated after '-' |
| `NumberText.ParseSignedHex` | src/index.ts:77 | "-0x1A" parses to -26 |
| `NumberText.ParseSecondSign` | src/index.ts:77 | "+-1" parses to NaN, since only one sign is taken |
| `NumberText.ParseBareHexPrefix` | src/index.ts:77 | "0x" parses to NaN, since no hexadecimal digit follows the prefix |
| `NumberText.ParseRenderPrefix` | src/index.ts:77 | `parseInt` reads `n.toString()` back as `n` even with trailing text, unless that text starts with a digit or extends "0" into a hex prefix |
| `NumberText.ParseRenderRoundTrip` | src/index.ts:68-80 | `parseInt(n.toString())` is `n` for every integer `n` |
| `NumberText.ParseNaNWithoutDigits` | src/index.ts:77-79 | text with no decimal digit parses to NaN, which is what sends `recoverState` to the fallback |
| `NumberText.ParseLeadingDigit` | src/index.ts:77 | text that starts with a digit, other than a "0x" prefix, parses to a non-negative integer |
| `JsText.LeadingZeros` | src/utils.ts:27 | zero padding does not change the decimal value of a digit string |
| `JsText.PadStart` | src/utils.ts:27 | the padded text is at least the requested length and ends with the original text after filler only |
| `Bits.ToUint32` | src/utils.ts:14 | the 32-bit pattern lies in [0, 2^32) and is congruent to the number modulo 2^32 |
| `Bits.ToUint8` | src/utils.ts:14 | the byte a `Buffer` store keeps lies in [0, 256) and is congruent to the stored number modulo 256 |
| `Bits.Xor32` | src/utils.ts:14 | the 32-bit pattern of `a ^ b` is the bitwise XOR of the patterns of `a` and `b`; `Bits.StoredXorIsLowByteXor` gives what a byte store keeps of it |
| `Bits.XorBits` | src/utils.ts:14 | the XOR of the low `k` bits is below 2^k |
| `Bits.StoredXorIsLowByteXor` | src/utils.ts:14 | storing the signed `a ^ b` into a byte gives the low 8 bits of the 32-bit XOR, which is the XOR of the low bytes |
| `Bits.XorBitsLow` | src/utils.ts:14 | the low `j` bits of a `k`-bit XOR are the `j`-bit XOR |
| `Bits.XorBitsOfLow` | src/utils.ts:14 | a `k`-bit XOR depends only on the low `k` bits of its operands |
| `ShortHash.XorFold` | src/utils.ts:12-15 | the fold is half as long as the digest, which is 2 bytes |
| `ShortHash.FoldIsLowByteXor` | src/utils.ts:12-15 | folded byte `i` is the XOR of the low bytes of words `i` and `i + 2` |
| `ShortHash.UInt32BE` | src/utils.ts:18-19 | the 4 bytes read big-endian give back the length |
| `ShortHash.ByteDigits` | src/utils.ts:27 | a byte renders as exactly 3 decimal digits whose value is the byte |
| `ShortHash.EncodeBytes` | src/utils.ts:25-28 | the rendering has 3 digits per byte and contains only decimal digits |
| `ShortHash.DecodeEncode` | src/utils.ts:25-28 | reading the rendering back 3 digits at a time gives the bytes |
| `ShortHash.CombinedBytes` | src/utils.ts:18-22 | `Buffer.concat` gives 6 bytes: the 2 folded bytes first, then 4 bytes whose big-endian value is the input length |
| `ShortHash.GenerateShortNumericHash` | src/utils.ts:3-31 | `RangeError` occurs exactly when the length is at least 2^32; otherwise the hash is 18 decimal digits |
| `ShortHash.HashDecodes` | src/utils.ts:12-28 | the 6 groups of 3 digits are the 2 folded bytes followed by the 4 length bytes |
| `ShortHash.HashFoldedGroups` | src/utils.ts:12-28 | the first two groups are the XORs of the low bytes of words 0 and 2, and of words 1 and 3 |
| `ShortHash.HashLengthSuffix` | src/utils.ts:18-28 | the last 12 digits decode, as a big-endian integer, to the input length |
| `ShortHash.HashSeparatesLengths` | src/utils.ts:18-22 | inputs of different lengths always get different hashes |
| `ShortHash.EmptyHashSuffix` | src/utils.test.ts:30-40 | the hash of "" ends in twelve zeros |
| `ShortHash.ZeroBytes` | src/utils.ts:25-28 | zero bytes render as all-zero digit groups |

In the model, both cores are pure functions of their inputs. Equal inputs therefore give equal outputs, which is the "consistent hash" expectation of `src/utils.test.ts:5-15`.

## Left out

- `Math.sin`, and the IEEE rounding of `* 10000` and of `min + range * u`. The sine is a parameter, and the rest is exact real arithmetic. In doubles, `min + range * u` can round up to `max`, so the range bounds hold over exact reals only. Two more double effects are not modelled either:
  - `x - Math.floor(x)` (`src/index.ts:44`) rounds to 1 for x just below 0, in [-2^-54, 0).
  - `max - min` (`src/index.ts:55`) overflows to Infinity for extreme bounds, and a zero draw then gives `Infinity * 0`, which is NaN.
- `Date.now()`: the clock is the parameter `now`.
- MD5 (`./md5`) is not part of this model. It is a parameter. Whether two inputs of equal length hash differently depends on MD5 itself and is not stated.
- JavaScript number precision. States, seeds and parsed values are exact integers. In the source, the state round trip and `state + 1` are exact only for safe integers (magnitude below 2^53), and `toString` switches to exponent notation from 1e21. `parseInt` of a long digit run is not rounded to a double here.
- `-0`: `parseInt("-0")` gives negative zero, which behaves as 0 in every later use, so it is modelled as 0.
- Non-integral, NaN and infinite numeric seeds. The constructor accepts any number, but the model's numeric seed is an `int`.
- RecoverableRandom.Random: the value is not proved to be non-integral in float mode (`src/index.test.ts:50`), because that depends on the values of `Math.sin`.
- The `TypeError` for a non-string hash input (`src/utils.ts:4-6`): the types make it unreachable.
- The `RangeError` is the only failure of the hash that is modelled. Strings of length 2^32 or more cannot exist in practice.
- The compiled `dist/index.js` repeats `src/index.ts` line for line and is not modelled separately. The assertions of `src/index.test.ts` and `src/utils.test.ts` appear as the lemmas that cite them in the table.
