# useragent — a verified model of the User-Agent synthesiser

The `useragent` service (a single Go file, `main.go`) builds realistic browser
User-Agent strings for four targets: Chrome on Windows, Chrome on Android,
Safari on iPhone and Safari on macOS. Each string comes from:

- a sampled browser version: a major number inside a window that the options
  can move, plus a dotted full version;
- tables of OS versions and Android devices;
- one of four fixed templates.

An HTTP handler (`handleUA`) reads a `count` and an `@`-separated `type`
list from the query and returns that many generated strings.

The model makes every random draw an explicit argument. Each `rand.Intn`
offset, table index and `rand.Float64() < 0.3` coin is a parameter. Its
precondition says where the random source could have put it. The model is
then deterministic, and its contracts describe every output the service can
produce. The output strings are sequences of product tokens, as in section
10.1.5 of RFC 9110. The model reads them back with `Strings.ProductVersion`:
the last space-separated word `name/<version>` gives that name's version.

Modules, in dependency order:

| file | module | what it holds |
|---|---|---|
| `wrappers.dfy` | `Wrappers` | `Option` |
| `strings.dfy` | `Strings` | Go's `strings.Split`, `strings.TrimSpace` and `strings.ReplaceAll` with one-character arguments; substring predicates; templates as lists of pieces; product-token reading |
| `decimal.dfy` | `Decimal` | `%d` printing, `strconv.Atoi` with a 64-bit `int`, and dotted version strings |
| `tables.dfy` | `Tables` | the version bounds and the string tables (`main.go:64-117`), verbatim |
| `sampler.dfy` | `Sampler` | `fromRange`, the major-version window, `chromeVersion`, `safariVersion` |
| `templates.dfy` | `Templates` | the four `generate*` renderers and the iPhone mobile identifier |
| `generator.dfy` | `Generator` | the functional options, the target switch (`Render`) and `Generate` with its options loop |
| `handler.dfy` | `Handler` | the `count` and `type` normalisation of `handleUA` and the loop that fills the response |

Targets are integer codes, as Go's `iota` constants are. This way an unknown
target can be passed and yields the zero `Result`. The imperative parts of
the source are methods:

- `ParseCount` reassigns `count` step by step, without a loop;
- `Generate` is a loop that applies the options over `{MajorDelta: 2}` one by one;
- `ParseTargets` is a loop that appends recognised targets;
- `GenerateBatch` is a loop that fills the result slice by index.

The three loops carry invariants.

`Generate`, `ParseCount` and `ParseTargets` are each proved equal to a
function, and the function's properties are lemmas. `GenerateBatch` is
specified entry by entry: it has `count` entries, and entry `i` is `Render`
of the target picked for it.

On `count`, one would expect every count above 100 to be clamped to 100, as
the comment at `main.go:306` ("limit the maximum count") suggests. The code
clamps only values that `strconv.Atoi` accepts. A number beyond the 64-bit range is an
`Atoi` error, so it falls back to 1. The model follows the code: see
`Handler.CountBeyondInt64`.

## Model

| member | source | states |
|---|---|---|
| Sampler.FromRange | main.go:120-125 | a degenerate range (`min >= max`) gives exactly `min`; otherwise the result lies in the closed range `[min, max]` |
| Sampler.FromRangeCovers | main.go:120-125 | every value of a non-empty closed range is produced by some admissible `rand.Intn` draw |
| Sampler.DrawMajor | main.go:133-140 | the major lies in the default bounds when `maxMajor <= 0`; in `[max(maxMajor-majorDelta, 0), maxMajor]` when `maxMajor > 0` and `majorDelta >= 0`; and is exactly `maxMajor-majorDelta` when the delta is negative |
| Sampler.ChromeVersion | main.go:133-148 | the major lies in the window for Chrome's default `[136, 138]`; `Full` is exactly the `%d` printing of four numbers joined by dots: `Major`, 0, a patch in `[6834, 7204]` and a build in `[85, 101]` |
| Sampler.SafariVersion | main.go:151-168 | the major lies in the window for Safari's default `[614, 632]`; `Full` is exactly the `%d` printing, joined by dots, of `Major` and a minor in `[1, 36]`, plus a patch in `[1, 15]` exactly when the 0.3 coin came up |
| Decimal.NatToString | main.go:146 | `%d` of a natural number is a non-empty run of digits with no leading zero |
| Decimal.NatToStringRoundTrip | main.go:146 | reading the digits printed by `%d` gives the number back |
| Decimal.OneNumber | main.go:146 | one number printed with `%d` reads back as a version of exactly that number |
| Decimal.OneMoreNumber | main.go:146 | appending `.` and a printed number to a version appends that number to what it reads back as |
| Decimal.TwoNumbers | main.go:209-213 | a run of digits, a dot and a printed number read back as those two numbers |
| Decimal.NumbersCharset | main.go:146 | a string that reads as a version holds only digits and dots |
| Decimal.DottedRoundTrip | main.go:146 | numbers printed with `%d` and joined with dots split and parse back to the same numbers |
| Decimal.NoSpaceInVersion | main.go:146 | a dotted version string has no space, so it stays one word of a User-Agent |
| Decimal.Atoi | main.go:301 | a parsed count lies in the 64-bit range, and a negative one comes from text that starts with `-` |
| Decimal.AtoiNatToString | main.go:301 | `Atoi` reads back every printed number of at most 2^63-1 |
| Strings.Split | main.go:321 | splitting gives at least one piece, and no piece contains the separator |
| Strings.JoinSplit | main.go:321 | joining the pieces with the separator gives back the split string |
| Strings.SplitJoin | main.go:321 | splitting pieces joined by a separator they lack gives the pieces back |
| Strings.SplitPadded | main.go:321 | two separator-free words, the second with one space on each side, split into the first word and the padded second |
| Strings.TrimSpaceTrims | main.go:322 | `TrimSpace` returns the part of its input left after white space is cut from both ends, and that part does not start or end with white space |
| Strings.TrimSpaceKeepsText | main.go:322 | a token with any character outside white space does not trim to the empty string |
| Strings.TrimSpaceUnchanged | main.go:322 | a token that neither starts nor ends with white space trims to itself |
| Strings.TrimPadded | main.go:322 | such a token with one space added at each end trims back to the token |
| Strings.ReplaceAll | main.go:192 | same length, every `_` becomes `.` and every other character is kept, so the result has no `_` |
| Templates.ChromeWindowsUA | main.go:171-176 | the UA contains `Windows NT 10.0`, `Win64` and `Chrome/` followed by the full version, and ends in `Safari/537.36` |
| Templates.ChromeWindowsProducts | main.go:171-176 | read back as product tokens, the Windows UA gives the full version as `Chrome` and `537.36` as `Safari` |
| Templates.ChromeAndroidUA | main.go:179-185 | the UA contains `Android` with the drawn version, the vendor, `Chrome/` followed by the full version and `Mobile`, and ends in `Safari/537.36` |
| Templates.ChromeAndroidProducts | main.go:179-185 | whatever the vendor, the last three words are `Chrome/<full>`, `Mobile`, `Safari/537.36`, and the `Chrome` token gives the full version |
| Templates.MobileId | main.go:195-198 | the mobile identifier is six characters: letter, digit, digit, letter, digit, letter, with letters in A-Z and digits in 0-9 |
| Templates.MobileIdDraws | main.go:195-198 | every identifier of that pattern is produced by some admissible draws |
| Templates.MobileIdInjective | main.go:195-198 | different draws give different identifiers |
| Templates.IOSDisplayIsWord | main.go:189-192 | the displayed iOS version has no spaces |
| Templates.SafariIPhoneUA | main.go:188-204 | the UA contains `iPhone OS` with the table version, `Version/` with that version's `_` turned into `.`, and `Mobile/` with the identifier, and ends in `Safari/` followed by the full version |
| Templates.SafariIPhoneWords | main.go:200-203 | the last three words of the iPhone UA are its `Version`, `Mobile` and `Safari` tokens |
| Templates.SafariIPhoneProducts | main.go:188-204 | read back as product tokens: `Version` is the dotted iOS version, `Mobile` is the identifier, `Safari` is the full version |
| Templates.MacDisplayVersion | main.go:209-213 | the displayed Safari version reads as two numbers: a table major in `[15, 17]` and a minor in `[0, 7]` |
| Templates.SafariMacUA | main.go:207-216 | the UA contains `Mac OS X` with the table version, `AppleWebKit/` followed by the full version, and `Version/` followed by the display version, and ends in `Safari/` followed by the full version |
| Templates.SafariMacProducts | main.go:207-216 | read back as product tokens: `Version` is the display version and `Safari` is the full version |
| Generator.LastOptionWins | main.go:220-223 | an option that no later option of the same kind overrides decides its field |
| Generator.UnsetFieldKept | main.go:220-223 | a field that no option sets keeps its starting value, so `MajorDelta` stays 2 and `MaxMajor` stays 0 by default |
| Generator.Vendor | main.go:235-238 | a non-empty vendor option is used verbatim; an empty one means an entry of the vendor table |
| Generator.ForcedVendorUsed | main.go:219-241 | over any starting options, a non-empty vendor set by the last vendor option appears verbatim in the Android UA |
| Generator.Render | main.go:225-260 | an unknown target gives the zero `Result`; each known target gives a non-empty UA and a version with that browser's shape, its major inside the window the options set |
| Generator.RenderWindows | main.go:226-231 | the Windows target's UA names `Windows NT 10.0` and `Win64`, carries the returned version after `Chrome/` and ends in `Safari/537.36` |
| Generator.RenderAndroid | main.go:233-242 | the Android target's UA names the vendor Generate settled on and `Mobile`, carries the returned version after `Chrome/` and ends in `Safari/537.36` |
| Generator.ForcedVendorAppears | main.go:235-241 | once the options hold a non-empty vendor, that vendor appears verbatim in the Android UA |
| Generator.TableVendorAppears | main.go:235-242 | without a vendor option, some entry of the vendor table appears verbatim in the Android UA |
| Generator.RenderEmbedsVersion | main.go:226-256 | the returned `BrowserVersion.Full` is the version the UA's Chrome (Chrome targets) or Safari (Safari targets) product token carries |
| Generator.Generate | main.go:219-261 | the options loop leaves exactly `ApplyAll` of the options over `{MajorDelta: 2}`, and the result is `Render` of those options |
| Handler.CountOf | main.go:299-309 | the count is always in `[1, 100]`: the parsed value when it is in `1..100`, 100 above that, and 1 for an empty, unparsable, out-of-range or non-positive value |
| Handler.ParseCount | main.go:299-309 | the step-by-step reassignment computes `CountOf` |
| Handler.CountOfPrinted | main.go:299-309 | a printed positive count is kept up to 100 and clamped to 100 above |
| Handler.CountExamples | main.go:299-309 | `""`, `"abc"`, `"0"` and `"-5"` give 1; `"150"` gives 100 |
| Handler.CountBeyondInt64 | main.go:301-309 | a count beyond the 64-bit range gives 1, not 100 |
| Handler.TypeName | main.go:312-317 | each known target has a name that is non-empty and has no `@` |
| Handler.TypeNameSelects | main.go:312-317 | the type map sends the name of each known target back to that target |
| Handler.TypeNameTrimmed | main.go:312-322 | a target's name neither starts nor ends with white space, so trimming leaves it unchanged |
| Handler.Trimmed | main.go:321-322 | each token is replaced by its trimmed form, position by position |
| Handler.Recognised | main.go:321-325 | only known targets are collected, and there are no more of them than tokens |
| Handler.TargetsOf | main.go:319-331 | the target list is never empty and holds only known targets |
| Handler.RecognisedConcat | main.go:321-325 | recognition works token by token, so the order of the tokens is kept |
| Handler.UnknownNameSkipped | main.go:322 | a token that names no target is dropped without affecting the others |
| Handler.RecognisedMembers | main.go:321-325 | a target is in the list exactly when some trimmed token is its name |
| Handler.RecognisedNames | main.go:312-325 | the names of any list of known targets, repeats included, are recognised as exactly that list |
| Handler.TargetsOfNames | main.go:319-331 | naming any non-empty list of targets joined with `@` selects exactly that list, in order and with repeats |
| Handler.TargetsFallback | main.go:328-331 | a `type` value whose trimmed tokens name no target falls back to all four targets |
| Handler.TargetsInOrder | main.go:319-331 | `"ios@win"` selects the iPhone target and then the Windows target |
| Handler.TargetsPadded | main.go:319-331 | two target names joined by `@`, the second padded with spaces, select those two targets in that order, the same target twice included |
| Handler.PaddedTokens | main.go:321-322 | a name, `@`, then a second name with one space on each side, splits and trims back to exactly the two names |
| Handler.TargetsUnknown | main.go:319-331 | `"tv"` and `""` select all four targets |
| Handler.ParseTargets | main.go:319-331 | the append loop and the fallback compute `TargetsOf` |
| Handler.GenerateBatch | main.go:334-338 | the slice has `count` entries; entry `i` is the default-options UA for the target picked for it |
| Handler.HandleUA | main.go:299-342 | the response has code `"200"` and `CountOf(count)` entries; each entry is non-empty and is `Render` with default options of a known target from `TargetsOf(type)` |

## Left out

- `main`, route registration and `ListenAndServe` (`main.go:263-276`) are network I/O and environment reads.
- Writing the response (`main.go:340-343`) is left out. The JSON encoding and the `Content-Type` header are library I/O. `Handler.HandleUA` returns the response value.
- Client-IP resolution and the timestamped log line (`main.go:286-294`) are logging side effects.
- Query-string decoding (`r.URL.Query()`, `query.Get`) is library code. The handler takes the decoded `count` and `type` values as strings.
- The random source is not modelled. Each draw is a parameter constrained to the values `rand.Intn` can return. `rand.Float64() < 0.3` is a boolean coin. Uniformity and the 0.3 frequency are statistical claims, so they are not stated.
- Concurrent use of the shared `math/rand` generator is left out. The model is sequential.
- `Option` is a datatype with the three constructors the package defines, not a closure. Options written by a caller as arbitrary closures are not modelled.
- Sampler.DrawMajor: does not model 64-bit wrap-around of `maxMajor-majorDelta` or of `max-min+1` in `fromRange`. Integers are unbounded, so an option pair that overflows in Go gets an arithmetic window here.
- Strings.TrimSpaceTrims: strings are sequences of code points. Go's handling of invalid UTF-8 bytes in `strings.TrimSpace` is not modelled.
- `strings.SplitSeq` is modelled as `strings.Split` (the same pieces, as a list rather than an iterator).
- `randChoice` (`main.go:128-130`) is not a separate function. Each call site indexes its table with a drawn index below the table length: `Generator.Vendor` and the `os`/`display` parameters of the templates.
