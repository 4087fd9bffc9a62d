# Chain config duplication, modelled in Dafny

`scripts/duplicate.ts` scaffolds a new per-chain configuration. It reads
`--chainId=<id>` from the command line and rejects a missing or empty value
(`MissingArgument`). It also rejects a value that `parseInt(id, 10)` turns into
NaN (`InvalidArgument`). It then reads the template `chains-testnet/84532.json`
and parses it as JSON. It sets `name` and `chainId` to the identifier string,
and replaces `rpc` with `http://host.docker.internal:<id>` only when `rpc` is
exactly the placeholder `<YOUR RPC URL (debug_traceCall enabled)>`. It writes
the result to `chains-testnet/<id>.json` and reports whether `rpc` changed.

The model has one module per concern:

- `JsString` (`js_string.dfy`): `startsWith` and `split` with a one-character
  separator. `Join` undoes `Split`, and the pieces are proved
  separator-free.
- `Args` (`args.dfy`): `getChainIdFromArgs`. `find` returns the first argument
  carrying the flag. `split('=')[1]` is the `=`-free text after the flag, up
  to the next `=` or the end.
- `ParseInt` (`parse_int.dfy`): `parseInt(s, 10)` as ECMA-262 section 19.2.5
  defines it. It skips leading StrWhiteSpaceChar, takes an optional sign and
  the longest digit run, and gives NaN when there is no digit. The module
  proves NaN-ness equivalent to an independent definition and proves a round
  trip through the decimal form of any integer with trailing text that does
  not start with a digit.
- `Validation` (`validation.dfy`): the two top-level checks, returning
  `MissingArgument | InvalidArgument | Ok(id)`. `Ok` carries the raw string.
- `Config` (`config.dfy`): JSON values and the class `ChainConfig`. The class
  holds the parsed object's properties and assigns them in place, as `main`
  does. Its method `ApplyChainId` is proved to compute the specification
  function `Transformed`. Lemmas about `Transformed` give the field values,
  the frame, idempotence and the meaning of the change report.
- `Duplicate` (`duplicate.dfy`): `Run`, the whole script. File reading,
  JSON parsing and the write's success are inputs to it. Its postconditions
  give the exit status, the error kind and the path and content written.

Behaviour of the code worth knowing:

- The destination path is `chains-testnet/<id>.json` and the template is
  `chains-testnet/84532.json`. Running with `--chainId=84532` therefore
  overwrites the template itself. Among identifiers without a path separator
  (`/`, and also `\` on Windows), it is the only one that does
  (`Duplicate.TargetIsTemplateIff`).
- The code only requires that `parseInt` is not NaN. So `12abc` and ` -7x`
  are accepted and used as written in the file name and fields.
- An identifier may also be a relative path. `1/../84532` is accepted
  (`Validation.PathLikeIdAccepted`). `path.join` then resolves it to the
  template, and an identifier such as `1/../../x` makes the script write
  outside `chains-testnet`. That path resolution is not modelled (see
  "## Left out").
- If the template's JSON root is not an object, the code behaves as follows
  (an ES module runs in strict mode). `null` throws when `rpc` is read. A
  boolean, number or string throws when `name` is assigned. An array takes
  the assignments as extra properties, which `JSON.stringify` drops, so the
  array is written back unchanged. `Run` models all three cases.

## Model

| member | source | states |
|---|---|---|
| `JsString.Split` | scripts/duplicate.ts:11 | `split` with a one-character separator always gives at least one piece; the lemmas below show the pieces joined back give the input, contain no separator, and that the first piece is the longest separator-free prefix |
| `JsString.SplitJoin` | scripts/duplicate.ts:11 | joining the pieces of `split` with the separator gives back the original string |
| `JsString.SplitPiecesAreSeparatorFree` | scripts/duplicate.ts:11 | no piece of `split` contains the separator |
| `JsString.FirstPieceIsLongestPrefix` | scripts/duplicate.ts:11 | the first piece is a separator-free prefix followed by the end or by a separator |
| `JsString.FirstPieceUnique` | scripts/duplicate.ts:11 | any separator-free prefix followed by the end or a separator is the first piece |
| `JsString.SplitAtFirstSeparator` | scripts/duplicate.ts:11 | splitting `p + sep + t` with `p` separator-free gives `p` followed by the pieces of `t` |
| `Args.FindChainIdArg` | scripts/duplicate.ts:9 | the search finds nothing exactly when no argument starts with `--chainId=`; what it finds is an argument that starts with the flag |
| `Args.FindReturnsFirstMatch` | scripts/duplicate.ts:9 | the search returns the first argument with the flag, whatever follows it |
| `Args.ChainIdOf` | scripts/duplicate.ts:11 | `split('=')[1]` is `=`-free, directly follows `--chainId=`, and ends at the end or at a second `=` |
| `Args.ChainIdOfUnique` | scripts/duplicate.ts:11 | conversely, the `=`-free text after the flag, up to the end or a `=`, is the extracted value |
| `Args.GetChainIdFromArgsSpec` | scripts/duplicate.ts:7-14 | when argument `i` is the first with the flag, the result is the value cut from argument `i` |
| `Args.GetChainIdFromArgs` | scripts/duplicate.ts:7-14 | the result is `null` exactly when no argument starts with `--chainId=`, and is otherwise `=`-free; with `GetChainIdFromArgsSpec` it is the value cut from the first such argument |
| `Args.ExampleSecondEqualsAndLaterFlag` | scripts/duplicate.ts:9-11 | `--chainId=1=2` followed by `--chainId=7` yields `1` |
| `Args.ExampleEmptyValue` | scripts/duplicate.ts:11 | `--chainId=` yields the empty string rather than `null` |
| `ParseInt.TrimStartIsSuffix` | scripts/duplicate.ts:23 | skipping leading white space leaves a suffix that no white space begins, preceded only by white space |
| `ParseInt.TrimStartSkips` | scripts/duplicate.ts:23 | trimming reaches the first character that is not white space |
| `ParseInt.DigitPrefixIsLongest` | scripts/duplicate.ts:23 | the digit run `parseInt` reads is a prefix, and the character after it is not a digit |
| `ParseInt.LeadingIntegerParses` | scripts/duplicate.ts:23-24 | a digit after white space and an optional sign gives `parseInt` digits to read |
| `ParseInt.ParsedHasLeadingInteger` | scripts/duplicate.ts:23-24 | digits that `parseInt` reads imply such a digit |
| `ParseInt.DigitsReadIff` | scripts/duplicate.ts:23-24 | `parseInt` has digits to read exactly when a digit follows the leading white space and optional sign |
| `ParseInt.ParseInt10` | scripts/duplicate.ts:23-24 | `parseInt(s, 10)` is NaN exactly when no decimal digit follows the leading white space and optional sign; with `ParseIntRoundTrip` its value is the integer written, trailing text ignored |
| `ParseInt.DecimalStringValue` | scripts/duplicate.ts:23 | the decimal digits of `n` have value `n` |
| `ParseInt.DigitPrefixOfDigits` | scripts/duplicate.ts:23 | the digit run stops where the digits stop, whatever non-digit text follows |
| `ParseInt.ParseUnsignedDigits` | scripts/duplicate.ts:23 | digits followed by a non-digit parse to the digits' value |
| `ParseInt.ParseNegativeDigits` | scripts/duplicate.ts:23 | a minus sign, digits and a non-digit parse to the negated value |
| `ParseInt.ParseIntRoundTrip` | scripts/duplicate.ts:23 | parsing the decimal form of any integer `i`, followed by any text not starting with a digit, gives `i` |
| `Validation.Validate` | scripts/duplicate.ts:18-27 | null or empty gives `MissingArgument`; otherwise no leading integer gives `InvalidArgument`; otherwise `Ok` with the raw string, which is non-empty and has a leading integer |
| `Validation.DecimalIdsAccepted` | scripts/duplicate.ts:23-27 | any integer in decimal, with or without trailing non-digit text, is accepted verbatim |
| `Validation.PathLikeIdAccepted` | scripts/duplicate.ts:23-27 | `1/../84532` passes validation and is kept as written |
| `Validation.ExamplesOfValidation` | scripts/duplicate.ts:23-27 | `12abc` is accepted as `12abc`; `abc` and a single space are not numbers |
| `Config.LocalRpcUrl` | scripts/duplicate.ts:48 | the URL is the Docker host prefix followed by the identifier |
| `Config.LocalRpcUrlIsNotPlaceholder` | scripts/duplicate.ts:46-48 | the generated URL is never the placeholder |
| `Config.ChainConfig.constructor` | scripts/duplicate.ts:37 | the object holds exactly the parsed properties |
| `Config.ChainConfig.Get` | scripts/duplicate.ts:39 | reading a property gives its value, or `undefined` when the key is absent |
| `Config.ChainConfig.Set` | scripts/duplicate.ts:42-43 | assigning a property adds or overwrites that key and leaves the others |
| `Config.ChainConfig.ApplyChainId` | scripts/duplicate.ts:39-49 | the in-place edit leaves the properties equal to `Transformed` of the old ones; the report is true exactly when the old `rpc` was the placeholder |
| `Config.Transformed` | scripts/duplicate.ts:42-49 | the edited object has the old keys plus `name` and `chainId`, both holding the identifier; with the lemmas below, `rpc` is replaced only on an exact placeholder match and every other key keeps its value |
| `Config.TransformSetsIdentity` | scripts/duplicate.ts:42-43 | after the edit, `name` and `chainId` are both the identifier string |
| `Config.TransformRpc` | scripts/duplicate.ts:46-49 | `rpc` becomes the local URL when it was exactly the placeholder; otherwise it keeps its value, and an absent `rpc` stays absent |
| `Config.TransformFrame` | scripts/duplicate.ts:42-49 | every key other than `name`, `chainId` and `rpc` keeps its value; the keys are the old ones plus `name` and `chainId` |
| `Config.RpcChangedIffPlaceholder` | scripts/duplicate.ts:57-61 | `rpc` differs after the edit exactly when it was the placeholder |
| `Config.TransformIdempotent` | scripts/duplicate.ts:42-49 | editing a second time with the same identifier changes nothing |
| `Duplicate.TargetFileName` | scripts/duplicate.ts:31 | the file name is the identifier followed by `.json` |
| `Duplicate.TargetPath` | scripts/duplicate.ts:30-31 | the destination lies in `chains-testnet/` and ends in the file name |
| `Duplicate.TargetPathInjective` | scripts/duplicate.ts:31 | different identifiers give different destination path strings, before `path.join` normalisation |
| `Duplicate.TargetIsTemplateIff` | scripts/duplicate.ts:29-31 | the destination path string is the template's exactly when the identifier is `84532`, before `path.join` normalisation |
| `Duplicate.ExitCode` | scripts/duplicate.ts:20 | the exit status is 0 exactly on success and 1 otherwise |
| `Duplicate.Run` | scripts/duplicate.ts:16-73 | argument errors come first and touch no file; each read, parse, type and write failure gives its error; success happens exactly when the identifier is valid, the template is a JSON object or array and the write succeeds; the file written is `chains-testnet/<id>.json` holding the edited object, or the unchanged array; the report is true exactly when `rpc` was the placeholder |
| `Duplicate.ExamplePlaceholderTemplate` | scripts/duplicate.ts:42-48 | the placeholder template edited for `12345` gets `name`, `chainId` and the local URL, and keeps `extra` |
| `Duplicate.ExampleCustomRpc` | scripts/duplicate.ts:46-49 | a custom `rpc` survives the edit for `999` |

## Left out

- Reading the template (`Bun.file(...).text()`) and writing the result (`Bun.write`) are file I/O. `Run` takes their outcomes as inputs. A failed write may leave a partial file, and that is not modelled.
- `JSON.parse` is an input to `Run` (`NotJson` or the parsed value). `JSON.stringify` with 4-space indentation is not modelled: the written content is a JSON value, not text.
- JSON objects are maps, so the key order `JSON.stringify` keeps is not modelled. Existing keys keep their place, and a new `name` or `chainId` would be appended at the end.
- JSON numbers are kept as opaque `real` values; nothing in the script inspects them.
- `path.resolve(cwd(), …)` and `path.join` depend on the host. `TargetPath` is the plain concatenation `chains-testnet/<id>.json`. `path.join` would normalise an accepted identifier containing `/` (or `\` on Windows) or `..`, and that normalisation is not modelled.
- Duplicate.TargetIsTemplateIff: is about the path string, not the file written. `1/../84532` (and `1\..\84532` on Windows) is accepted, and `path.join` resolves it to the template, so the template is also overwritten for that identifier.
- Duplicate.TargetPathInjective: is about the path string, not the file written. `5` and `1/../5` give different strings, but `path.join` resolves both to `chains-testnet/5.json`.
- Messages on standard output and standard error, and `exit(1)`, are not modelled as side effects. `Run` returns an `Outcome` instead, and `ExitCode` maps it to 0 or 1. The distinction between an `Error` and an unknown thrown value only changes the message text, so it is not modelled.
- The `async`/`await` structure of `main` is not modelled, because the script does nothing concurrently.
- ParseInt.ParseIntRoundTrip: uses the plain decimal form of an integer. JavaScript's `String(i)` agrees with it only for `|i| < 10^21` (`String(1e21)` is `1e+21`, which parses as 1), and integers above 2^53 are not exact JavaScript numbers.
- `ParseInt.ParseInt10` returns the mathematical integer. JavaScript rounds the value to a double and yields `Infinity` for very long digit strings. That affects only the value, never whether it is NaN, and the script uses only the NaN test.
- The `!==` comparison of the old and new `rpc` is reference equality on objects. The model uses value equality. The two agree here because an `rpc` that is not replaced is the same, unmodified value.
- The older `.includes('84532')` matching of `rpc` mentioned in a comment at line 50 is no longer in the code, so it is not modelled.
