# configg typed accessors in Dafny

This project models the typed accessors of `configg`, a small Go configuration
library. A configuration is a JSON document decoded into
`map[string]interface{}` (`Config.parsed`). A caller reads one key at a time
through `GetString`, `GetInt`, `GetFloat` or `GetArray`. Each getter hands
`getValue` a pointer to a zero-valued variable of its own type. `getValue`
looks the key up and picks a coercion from the pair (destination type, kind
of the stored value). It then either stores the converted value or returns
an error: "not found: k" or "type not matched: k would be T".

Files and modules:

- `wrappers.dfy` (`Wrappers`): `Option`.
- `json.dfy` (`Json`): `Raw`, the decoded JSON value. `Num` holds a float64
  as a `real`. `Int` mirrors the `int` arm of the switch; the decoder never
  produces it, and the predicate `Decoded` says so.
- `strconv.dfy` (`StrConv`): Go's `strconv.Atoi` on a 64-bit platform.
  - `Atoi` is the declarative definition: an optional sign, then one or more
    ASCII digits, with the value in the int64 range.
  - `ParseInt` is a digit-by-digit loop that stops once the magnitude passes
    2^63, proved to return what `Atoi` defines.
  - Atoi reads back every int64 that `Itoa` writes.
- `configg.dfy` (`Configg`): `getValue` as `GetValue`, plus the four getters.
  The destination is a `Value` whose constructor is the Go type of `*v`.
  `GetValue` returns the final destination together with the error.
  `strconv.ParseFloat` is the parameter `parseFloat` of `GetValue` and
  `GetFloat`; the other getters take only the key, as in Go.
- `properties.dfy` (`ConfiggProperties`): lemmas that relate calls, getters
  and conversions, and the two scenarios of `configg_test.go`.

Behaviour as written in configg.go:

- configg.go defines no `GetBool` and no `GetFloat64`, although
  configg_test.go:22 and configg_test.go:48 call them.
- The float64 arm of the switch has no `int` case (configg.go:102-115), so a
  float destination rejects the `int` kind.
- A destination of any type outside int, float64, string and
  `[]interface{}` falls out of the switch, and `getValue` returns nil with
  the destination untouched (configg.go:80-132).

Every JSON number is decoded as float64, so `"intParam": 1` reaches `GetInt`
as the number 1.0 and is truncated.

## Model

| member | source | states |
|---|---|---|
| Configg.GetValue | configg.go:60-133 | The destination keeps its Go type. A failure leaves the destination unchanged, and its error names the key. The error is NotFound exactly when the key is absent. A mismatch names the destination's own type, and that type is never an unsupported one. An unsupported destination type is never written, and if the key is present no error is reported. |
| Configg.GetString | configg.go:135-138 | Succeeds exactly when the key holds text, and returns that text unchanged. An absent key gives NotFound. Every other kind gives a string mismatch. On failure the value is the zero value "". |
| Configg.GetInt | configg.go:140-143 | An `int` value comes back unchanged. A number is truncated toward zero. Text succeeds exactly when it is a decimal integer (optional sign, digits) in the int64 range, and yields that integer. Bool, null, array and object give an int mismatch. An absent key gives NotFound. On failure the value is 0. |
| Configg.GetFloat | configg.go:145-148 | A number comes back unchanged. Text succeeds exactly when the float parser accepts it, and yields the parsed value. Every other kind, including `int`, gives a float mismatch. An absent key gives NotFound. On failure the value is 0.0. |
| Configg.GetArray | configg.go:150-153 | Succeeds exactly when the key holds an array, and returns the same elements with the same length and order. Every other kind gives an array mismatch. An absent key gives NotFound. On failure the value is the empty (nil) slice. |
| Configg.TruncateToInt | configg.go:86-88 | `int(f)` is the integer toward zero from f within distance less than 1, and its magnitude never exceeds that of f. |
| Configg.Message | configg.go:63-128 | "not found: " is followed by exactly the key. "type not matched: " is followed by the key and then more text. |
| StrConv.Atoi | configg.go:91-95 | A successful parse has valid integer syntax and a value inside the int64 range. |
| StrConv.ParseInt | configg.go:91-95 | A digit-by-digit loop that stops once the magnitude passes 2^63 returns what Go's Atoi returns, for every text. |
| StrConv.ShortIntegersInRange | configg.go:91-95 | A well-formed integer text with at most 18 digits never causes a range error. |
| StrConv.AtoiItoa | configg.go:91-95 | Atoi reads back the decimal text of every int64. |
| ConfiggProperties.MissingKeyNotFound | configg.go:61-64 | For every destination and every getter, an absent key gives NotFound naming that key, and the getter returns its type's zero value. |
| ConfiggProperties.WholeNumberExact | configg.go:86-88 | A whole-valued number such as 2.0 is read by GetInt as exactly that integer. |
| ConfiggProperties.IntTextRoundTrip | configg.go:90-95 | A key holding the decimal text of any int64 is read by GetInt as that integer. |
| ConfiggProperties.DecodedNumbersAgree | configg.go:81-115 | On decoded data, for a non-text value, GetInt succeeds exactly when GetFloat does, and returns GetFloat's value truncated toward zero. |
| ConfiggProperties.ParserOnlyForFloat | configg.go:80-132 | The result for any destination other than float64 does not depend on the float parser, so GetString, GetInt and GetArray, which hand getValue a fixed parser that accepts nothing, lose nothing by it. |
| ConfiggProperties.GetValueLocal | configg.go:61 | A lookup reads only the entry under its own key. Two documents that agree on that key give the same reply, so repeating a call gives the same answer. |
| ConfiggProperties.OtherKeyUpdateInvisible | configg.go:61 | Adding or replacing the entry of a different key does not change a lookup's reply. |
| ConfiggProperties.MessageInjective | configg.go:63-128 | Two different errors never print the same message, so the message identifies the error kind, the key and the target. |
| ConfiggProperties.TowardZeroUnique | configg.go:87 | Truncation toward zero determines a single integer. |
| ConfiggProperties.TruncationExamples | configg.go:86-88 | 2.9 truncates to 2 and -2.9 truncates to -2. |
| ConfiggProperties.BasicScenario | configg_test.go:82-116 | For the first test document, the int, float, string and array reads return 1, 1.2, "hello" and ["a","b","c"]. A bool destination is left untouched without error. Reading "true" as int is a mismatch. |
| ConfiggProperties.FlexibilityScenario | configg_test.go:120-156 | For the second test document, 1.0, 2.0 and "3" read as the ints 1, 2 and 3. 1.0 and 2.1 read as floats, and so does "3.1", given a float parser that reads "3.1" as 3.1. "3.1" read as an int is a mismatch. |

## Left out

- `LoadConfigFile` and `LoadConfigString` (configg.go:24-58): file I/O and the `encoding/json` decoder, a library outside this model. The decoded map is an input (`Config.parsed`).
- The `unparsed` field (configg.go:13): it is written by the loaders and never read.
- The reflection checks (configg.go:66-78): every getter passes `&val` of a concrete type, so they always pass. The destination's type is the constructor of `Value` instead.
- `strconv.ParseFloat`: its grammar and its rounding are not modelled. It is the parameter `parseFloat: string -> Option<real>`, and a range error counts as `None`. Text such as "inf" or "NaN" parses in Go to a value a `real` cannot hold; the model cannot express that case.
- Configg.TruncateToInt: for a float64 outside the int64 range, Go's `int(f)` is implementation-defined. The model returns the mathematical truncation, which is then outside the int64 range.
- IEEE float64 rounding: numbers are `real`, so the 1.2 of a document is the exact decimal 1.2.
- Aliasing: `GetArray` returns the very slice stored in the map, so a caller that writes to it changes the configuration. Values here are immutable, so this sharing is not modelled.
- A nil slice and an empty slice are both the empty sequence.
- `GetBool` and `GetFloat64`, called by configg_test.go:22 and configg_test.go:48: configg.go defines neither, so neither is modelled. A bool destination appears only as `OtherV`.
- Configg.Message: the name "other" for an unsupported target is never printed, because `getValue` reports no mismatch for such a destination.
- The test helpers' own logic (configg_test.go:8-79).
- Go's Atoi is modelled for a 64-bit `int`; 32-bit platforms are not modelled.
