# JsonPath and JsonStore in Dafny

A model of the two classes of the PHP package `BerndGoldschmidt/JsonPath`:

- **`JsonPath`** is Stefan Goessner's JSONPath interpreter, the dialect that predates RFC 9535. `jsonPath($array, $path, $args)` works in three steps:
  1. It normalizes the path into `;`-separated tokens (`$..book.*.category` becomes `..;book;*;category`).
  2. It traces those tokens through the document recursively. The trace handles:
     - direct keys, `*` and `..`;
     - scripts `(expr)` and filters `?(expr)`;
     - Python-style slices `start:end:step`;
     - comma unions.
  3. Every match is pushed onto the accumulator field `result`, either as the value or as a canonical path such as `$['store']['book'][0]`.
- **`JsonStore`** keeps a document in the field `data`. It resolves a JSONPath expression to canonical paths with the engine, splits each path back into keys, and then:
  - reads the values there (`get`, optionally deduplicated);
  - writes a value there (`set`);
  - adds a member under each match (`add`);
  - unsets the last key of each path (`remove`).

A PHP array is both a list and a map, so a document is one datatype. A `Node` is either a scalar or an ordered sequence of `(key, value)` members with distinct string keys (`document.dfy`). PHP's `eval` in `evalx` is modelled as an oracle, the `Evaluator`, with two functions:

- `key` gives the key that a script `(expr)` names;
- `test` is the filter predicate of `?(expr)`.

Each function returns `None` for the exception that a failing `eval` raises inside `evalx` (a ParseError or an Error). The trace reports it as `EvalError`. The evaluated code has no `return`, so an `eval` that succeeds yields null, and the `$res === false` branch of `evalx` with its "SyntaxError" message is never taken. With the oracle as a parameter, the matcher is a total, deterministic function `Matcher.Trace` that returns the ordered matches and the error that stopped the trace, if any.

The project is laid out as follows.

| file | contents |
|---|---|
| `prelude.dfy` | `explode`/`implode` (`Split`/`Join`) and integer rendering |
| `document.dfy` | the value tree; PHP's `$a[$k]`, `array_key_exists`, `(string)` and `empty` |
| `normalizer.dfy` | the three regular-expression passes of `normalize` as functions, and the dot hack of `tempFilters` |
| `paths.dfy` | paths as a user writes them, followed step by step through the passes of `normalize` |
| `matcher.dfy` | `trace`, `walk` with its callbacks, the union and slice loops, `asPath` and `store` as functions |
| `jsonpath.dfy` | class `JsonPath`, with `obj`, `resultType` and `result` as fields; its methods are proved equal to the functions |
| `store.dfy` | path splitting, tree reading and updating, `unique`, and class `JsonStore` |
| `*_properties.dfy`, `locations.dfy` | what the source promises about those functions |

`normalize` hands each parking match to `tempFilters`, which declares `string $filter` but reads `$filter[1]`. `preg_replace_callback` passes the array of matches, so PHP 7 and later raise a TypeError at the first filter, script or quoted key (see Findings). The engine follows the code as written: `Normalizer.NormalizeAsWritten`, used by `jsonPath` and hence by `get`, `set`, `add` and `remove`. The parking its authors meant, where the callback receives the captured group, is modelled beside it as `Normalizer.Normalize` and `Engine.JsonPath.NormalizeIntended`. The closed forms of `paths.dfy` are proved about both.

`normalize` is mostly regular-expression replacement, so it is modelled as functions. Its callbacks `tempFilters` and `strPosArray`, and the loops of `trace`, `walk` and `slice`, are methods on the class `JsonPath`. Each has a loop or an accumulator field and is proved to compute exactly what the corresponding function specifies. `JsonStore`'s methods update `data` and are specified by the functional updates in `store.dfy`.

Some behaviours of the code are easy to misread, and the model keeps them as written:

- `tempFilters` leaves a span alone when the *preceding* span **starts** with a backslash (`substr(..., 0, 1) == '\\'`).
- `tempFilters` rewrites `a.b` inside a filter to `a[b]`, with no quotes around `b`.
- The fast-path pattern of `normalizedFirst` sits in a double-quoted PHP string, so `\$` there is a plain end anchor. Only `""` and `"\n"` can match it, and the string returned would then be taken by `get` and `remove` as "no result". `Store.FastPath` and `Store.Resolved` model this.

## Model

| member | source | states |
|---|---|---|
| Engine.JsonPath.Query | src/BerndGoldschmidt/JsonPath/JsonPath.php:76-101 | `obj` becomes the document and `resultType` becomes the `resultType` argument, or `VALUE`. The answer and the new accumulator are those of `Answered`, the specification of `jsonPath`: the TypeError out of `normalize` with the accumulator as it was, or the traced entries. |
| QueryProperties.FalseExactly | src/BerndGoldschmidt/JsonPath/JsonPath.php:83-100 | `jsonPath` returns false exactly when the guard fails (empty or `"0"` path, empty document, result type other than `VALUE`/`PATH`) or when `normalize` did not raise and the trace ends without error and stored nothing. The TypeError of `normalize` is an exception, never false. |
| QueryProperties.GuardLeavesBuffer | src/BerndGoldschmidt/JsonPath/JsonPath.php:83-88 | When the guard fails, the answer is false and the accumulator is left untouched. |
| QueryProperties.AnswerIsMatches | src/BerndGoldschmidt/JsonPath/JsonPath.php:89-98 | Returned results are the accumulator. There is one entry per match, in trace order: the node in `VALUE` mode, `asPath` of its path in `PATH` mode. No entry is left over from the buffer, which `normalize` cleared. Every matched path leads from the root to its node. |
| QueryProperties.ModesAgree | src/BerndGoldschmidt/JsonPath/JsonPath.php:216-228 | `VALUE` and `PATH` queries agree on false, on the error and on the number of entries. The j-th value is the node that the j-th path addresses in the document. |
| QueryProperties.AnsweredFuel | src/BerndGoldschmidt/JsonPath/JsonPath.php:76-101 | A query not stopped by the fuel bound gives the same answer and leaves the same accumulator for any larger bound. |
| QueryProperties.MatchesAddressed | src/BerndGoldschmidt/JsonPath/JsonPath.php:89-93 | Every match of a query is addressed: its path is `$` followed by keys that lead from the document root to the matched node. |
| QueryProperties.EntriesOfMatches | src/BerndGoldschmidt/JsonPath/JsonPath.php:216-228 | Every match of a query stores exactly one entry, the value or the canonical path, in order. |
| Engine.JsonPath.StrPosArray | src/BerndGoldschmidt/JsonPath/JsonPath.php:397-409 | The loop returns the smallest position of any needle when that position is below 10000, and false otherwise. |
| Engine.EarliestKeyword | src/BerndGoldschmidt/JsonPath/JsonPath.php:397-409 | `strPosArray` over the keywords `=`, `)`, `!`, `<`, `>` agrees with `KeywordPosition`, an independent definition by the first keyword character. |
| Normalizer.FirstKeyword | src/BerndGoldschmidt/JsonPath/JsonPath.php:163 | The position found holds a keyword and no earlier position does; `None` means no keyword occurs. |
| Engine.JsonPath.TempFilters | src/BerndGoldschmidt/JsonPath/JsonPath.php:136-181 | As intended, called with the captured group: appends exactly one entry, the dot-hacked capture, to the accumulator. Returns `[#k]`, where k is that entry's index. |
| Engine.JsonPath.RewriteElements | src/BerndGoldschmidt/JsonPath/JsonPath.php:139-177 | Element i of the capture split on `'` is rewritten when i is even and element i-1 does not start with a backslash. Every other element is left unchanged, and the number of elements is kept. |
| NormalizerProperties.DotHackSpans | src/BerndGoldschmidt/JsonPath/JsonPath.php:142-177 | The parked text splits on `'` into as many spans as the capture. A span inside quotes, or after a span starting with a backslash, comes back unchanged. Every other span comes back rewritten: the dot hack adds no quote. |
| NormalizerProperties.DotHackWithoutDot | src/BerndGoldschmidt/JsonPath/JsonPath.php:142-177 | A filter without `.` is parked exactly as captured. |
| NormalizerProperties.DotHackMember | src/BerndGoldschmidt/JsonPath/JsonPath.php:152-168 | Unquoted `@.k`, for a key k without `.`, quotes or keywords, is parked as `@[k]`. |
| Engine.JsonPath.RewriteSpanLoop | src/BerndGoldschmidt/JsonPath/JsonPath.php:151-176 | A rewritten span is its text before the first `.`, then every later `.`-part as `[part]`, with the part's text from its first keyword on placed after the bracket. |
| Engine.BracketPieceStep | src/BerndGoldschmidt/JsonPath/JsonPath.php:162-173 | One pass of the inner `foreach` appends exactly `BracketPart` of its part. |
| Engine.JsonPath.ParkMatches | src/BerndGoldschmidt/JsonPath/JsonPath.php:110-114 | As intended: `preg_replace_callback` with `tempFilters` receiving the captured group returns the text and buffer of `ParkAll`. Leftmost matches become placeholders, and their rewritten captures are appended to the buffer in order. |
| Engine.JsonPath.ParkStep | src/BerndGoldschmidt/JsonPath/JsonPath.php:110-114 | As intended, one position of the scan: parks a match that starts there, or keeps the character, and always advances. |
| Normalizer.FirstFrom | src/BerndGoldschmidt/JsonPath/JsonPath.php:111 | The lazy `.*?`: the first position at which the closing pattern matches, and no earlier one. |
| NormalizerProperties.ParkingAppends | src/BerndGoldschmidt/JsonPath/JsonPath.php:110-114 | Parking only appends: the buffer it starts with is a prefix of the buffer it returns. |
| Engine.JsonPath.ScanMatches | src/BerndGoldschmidt/JsonPath/JsonPath.php:110-114 | As written: the scan stops with the TypeError at the first position where the pattern matches, and otherwise returns the subject unchanged (`ParkScan`). |
| Normalizer.ParkScan | src/BerndGoldschmidt/JsonPath/JsonPath.php:110-114 | A scan that comes through returns its subject unchanged: as written, nothing is ever parked. |
| NormalizerProperties.ParkScanRaises | src/BerndGoldschmidt/JsonPath/JsonPath.php:110-114 | The scan as written raises exactly when some position of the subject starts a match of the pattern. |
| NormalizerProperties.ParkScanAgrees | src/BerndGoldschmidt/JsonPath/JsonPath.php:110-114 | Where the scan as written comes through, the intended pass parks nothing and returns the subject and buffer unchanged. Where it raises, the intended pass parks at least one capture. |
| Engine.JsonPath.Normalize | src/BerndGoldschmidt/JsonPath/JsonPath.php:107-128 | As written: returns `NormalizeAsWritten` of the expression and the buffer it started with. On the TypeError the accumulator is left as it was; otherwise it is emptied. |
| NormalizerProperties.NormalizeAgrees | src/BerndGoldschmidt/JsonPath/JsonPath.php:107-128 | `normalize` as written raises exactly when the intended normalizer would park a capture. Otherwise both give the same tokens. |
| Engine.JsonPath.NormalizeIntended | src/BerndGoldschmidt/JsonPath/JsonPath.php:107-128 | As intended: returns `Normalizer.Normalize` of the expression and the buffer it started with (park, segment, restore), and leaves the accumulator empty. |
| PathNormalization.PathNormalizes | src/BerndGoldschmidt/JsonPath/JsonPath.php:107-128 | As intended, a path written as `$` followed by any mix of `.k`, `..k`, `[t]`, `['k']`, `[(expr)]` and `[?(expr)]` steps normalizes to `$;` followed by the steps' tokens joined by `;`. A key or bracketed token comes through as written, `..` is a token of its own before its key, and each quoted key, script and filter is exactly the text `tempFilters` parked for it, so the placeholders affect segmentation only. |
| PathNormalization.FilterPark | src/BerndGoldschmidt/JsonPath/JsonPath.php:110-114 | As intended, the first pattern replaces the script and filter steps, left to right, by the placeholders of the next buffer indices and appends their dot-hacked groups in that order. Every other step is left as written. |
| PathNormalization.QuotedPark | src/BerndGoldschmidt/JsonPath/JsonPath.php:110-114 | As intended, the second pattern then replaces each `['k']` by the placeholder of the next index, after all script entries, and appends the dot-hacked key. |
| PathNormalization.ScriptMatches | src/BerndGoldschmidt/JsonPath/JsonPath.php:111 | On a script or filter step, the lazy first pattern captures exactly `(expr)` or `?(expr)` and ends at that step's own `)]`. |
| PathNormalization.QuotedMatches | src/BerndGoldschmidt/JsonPath/JsonPath.php:111 | On a quoted key step, the second pattern captures exactly the key and ends at its `']`. |
| PathNormalization.SeparatorsOnPieces | src/BerndGoldschmidt/JsonPath/JsonPath.php:117-121 | The first segmenting rule turns `.k` into `;k`, `..k` into `;;k` and the opener of `[w]` (a placeholder or a bracketed token) into `;`. Nothing inside a piece changes. |
| PathNormalization.DoubledOnPieces | src/BerndGoldschmidt/JsonPath/JsonPath.php:117-121 | The second rule turns each `;;` into `;..;` and leaves single separators alone. |
| PathNormalization.NoiseOnPieces | src/BerndGoldschmidt/JsonPath/JsonPath.php:117-121 | The third rule removes the `]` that closes each bracketed piece, and nothing else. |
| PathNormalization.SegmentPieces | src/BerndGoldschmidt/JsonPath/JsonPath.php:116-121 | The three rules together turn each parked piece into `;` followed by its token, and `..k` into `;..;k`. |
| PathNormalization.RestoreOnPieces | src/BerndGoldschmidt/JsonPath/JsonPath.php:124 | Restoring replaces each placeholder `#m` by buffer entry m and leaves everything else as it is. The result is the steps' tokens, each behind a `;`. |
| PathNormalization.BookCategoriesNormalize | src/BerndGoldschmidt/JsonPath/JsonPath.php:90 | As intended, once `$;` is stripped, `$..book.*.category` normalizes to `..;book;*;category`. |
| PathNormalization.CategoriesNormalize | src/BerndGoldschmidt/JsonPath/JsonPath.php:90 | As intended, `$..category` normalizes to `..;category`. |
| PathNormalization.QuotedStoreNormalize | src/BerndGoldschmidt/JsonPath/JsonPath.php:107-128 | As intended, `$['store'].book[0]` normalizes to `store;book;0` once `$;` is stripped. |
| PathNormalization.QuotedPathNormalizes | src/BerndGoldschmidt/JsonPath/JsonPath.php:107-128 | As intended, `$['k'].c[t]` normalizes to the three tokens `k;c;t` for any quoted key `k` without a dot and plain `c` and `t`. |
| PathNormalization.DescendNormalizes | src/BerndGoldschmidt/JsonPath/JsonPath.php:107-128 | As intended, a single descent `$..k` normalizes to the two tokens `..;k` for any plain key `k`. |
| PathNormalization.FilterNormalize | src/BerndGoldschmidt/JsonPath/JsonPath.php:107-128 | As intended, `$..book[?(b)]`, for any body b without `'` or `]`, normalizes to `..;book;` followed by the dot-hacked `?(b)` as one token. |
| PathNormalization.NothingParked | src/BerndGoldschmidt/JsonPath/JsonPath.php:110-114 | The parking passes push nothing exactly when no step is a quoted key, a script or a filter. |
| PathNormalization.PathRaises | src/BerndGoldschmidt/JsonPath/JsonPath.php:107-128 | As written, `normalize` on a path of the covered steps raises the TypeError exactly when some step is a quoted key, a script or a filter. Otherwise it gives `$;` followed by the joined step tokens, as intended. |
| PathNormalization.QuotedStoreRaises | src/BerndGoldschmidt/JsonPath/JsonPath.php:107-128 | As written, `normalize("$['store'].book[0]")` raises the TypeError. |
| PathNormalization.QuotedPathRaises | src/BerndGoldschmidt/JsonPath/JsonPath.php:107-128 | As written, `normalize` raises the TypeError on every path `$['k'].c[t]`, whatever the key, child and index. |
| PathNormalization.FilterRaises | src/BerndGoldschmidt/JsonPath/JsonPath.php:107-128 | As written, `normalize("$..book[?(b)]")` raises the TypeError for any body b without `'` or `]`. |
| PathNormalization.BookCategoriesAsWritten | src/BerndGoldschmidt/JsonPath/JsonPath.php:107-128 | As written, `$..book.*.category` still normalizes to `..;book;*;category`: no parking pattern matches it. |
| QueryProperties.ParkedPathRaises | src/BerndGoldschmidt/JsonPath/JsonPath.php:83-114 | Once the guard holds, a query whose path has a quoted key, a script or a filter raises the TypeError and leaves the accumulator as it was. |
| QueryProperties.PlainPathPrepared | src/BerndGoldschmidt/JsonPath/JsonPath.php:89-90 | A path of plain steps reaches `trace` as its step tokens joined by `;`. |
| QueryProperties.QuotedStoreQueryRaises | src/BerndGoldschmidt/JsonPath/JsonPath.php:83-114 | `jsonPath($data, "$['store'].book[0]")` on any non-empty array raises the TypeError, and the accumulator is left as it was. |
| NormalizerProperties.ParkPassive | src/BerndGoldschmidt/JsonPath/JsonPath.php:110-114 | Text free of `[` and `'` is left unchanged by parking, and so is the buffer. |
| NormalizerProperties.NoisePassive | src/BerndGoldschmidt/JsonPath/JsonPath.php:118-120 | The third rule removes nothing from text free of `'` and `]` that does not end in `;`. |
| NormalizerProperties.RestorePassive | src/BerndGoldschmidt/JsonPath/JsonPath.php:124 | Text without `#` is left unchanged by restoring. |
| NormalizerProperties.PlaceholderRestores | src/BerndGoldschmidt/JsonPath/JsonPath.php:188-191 | The placeholder `#k` that `tempFilters` returned for buffer entry k is restored to exactly that entry's text. |
| NormalizerProperties.RestoreHash | src/BerndGoldschmidt/JsonPath/JsonPath.php:124 | `#` followed by a digit run restores `restoreFilters` of the whole greedy digit run, and the scan continues after it. |
| Prelude.DigitRun | src/BerndGoldschmidt/JsonPath/JsonPath.php:124 | The digits of `#([0-9]+)` and of the slice groups: the longest prefix of digits, never followed by a digit. |
| Engine.JsonPath.Store | src/BerndGoldschmidt/JsonPath/JsonPath.php:216-228 | Appends nothing when `$p` is falsy (`""` or `"0"`). Otherwise appends `asPath($p)` in `PATH` mode or the value in `VALUE` mode. Returns whether `$p` was truthy. |
| Locations.StoredRooted | src/BerndGoldschmidt/JsonPath/JsonPath.php:216-228 | A path that starts at `$` always stores exactly one entry. |
| Locations.StoredEveryMatch | src/BerndGoldschmidt/JsonPath/JsonPath.php:216-228 | Storing matches rooted at `$` gives one entry per match, in order, each the value or the canonical path. |
| Engine.StoredAllAppend | src/BerndGoldschmidt/JsonPath/JsonPath.php:224 | Storing `a + b` is storing `a` and then `b`. |
| Matcher.AsPath | src/BerndGoldschmidt/JsonPath/JsonPath.php:198-209 | A canonical path always starts with `$`. |
| StoreProperties.KeysRoundTrip | src/BerndGoldschmidt/JsonPath/JsonStore.php:150-153 | Splitting `asPath(path)` the way `get` does recovers exactly the keys of `path` after `$`, provided no key contains `'`, `"` or `]`. |
| StoreProperties.KeysOfBrackets | src/BerndGoldschmidt/JsonPath/JsonPath.php:198-209 | `$` followed by any non-empty list of bracketed clean segments (`[seg]` for `^[0-9*]+$`, `['seg']` otherwise) splits back into that list. |
| StoreProperties.RootKeys | src/BerndGoldschmidt/JsonPath/JsonStore.php:150-153 | The root path `$` splits into the single key `$`, not into the empty list. |
| Engine.JsonPath.Trace | src/BerndGoldschmidt/JsonPath/JsonPath.php:235-271 | Appends to the accumulator the entries of every match of `Matcher.Trace`, in order. Returns the error that stopped that trace, if any. |
| Engine.JsonPath.TraceBelow | src/BerndGoldschmidt/JsonPath/JsonPath.php:235-271 | The same relation, for a recursive call of `trace`. |
| Engine.JsonPath.TraceOther | src/BerndGoldschmidt/JsonPath/JsonPath.php:252-270 | A token that is neither an existing key nor `*` nor `..` is traced as `Matcher.Trace` specifies. |
| Engine.JsonPath.TraceLocator | src/BerndGoldschmidt/JsonPath/JsonPath.php:262-270 | The filter, slice, union and no-match branches, as `Matcher.Trace` specifies. |
| Engine.JsonPath.TraceScript | src/BerndGoldschmidt/JsonPath/JsonPath.php:252-261 | A script token is traced as `Matcher.Trace` specifies. |
| Engine.JsonPath.ScriptKey | src/BerndGoldschmidt/JsonPath/JsonPath.php:252-261 | The script branch: the key from `evalx` is traced in the token's place, and a failing `eval` raises `EvalError`. |
| Engine.JsonPath.TraceFilter | src/BerndGoldschmidt/JsonPath/JsonPath.php:262-263 | A filter token walks the members with the `?(...)` callback. |
| Engine.JsonPath.TraceSlice | src/BerndGoldschmidt/JsonPath/JsonPath.php:264-266 | A slice token is traced by `slice`. |
| Engine.JsonPath.TraceUnion | src/BerndGoldschmidt/JsonPath/JsonPath.php:267-269 | A union token traces each of its pieces. |
| Engine.JsonPath.TraceToken | src/BerndGoldschmidt/JsonPath/JsonPath.php:269 | `trace($s[$i] . ";" . $x)` appends the entries of that trace. |
| Engine.JsonPath.Union | src/BerndGoldschmidt/JsonPath/JsonPath.php:267-269 | The loop over the pieces from `preg_split("/'?,'?/")` appends their entries in listed order. The first error stops it. |
| Engine.JsonPath.Each | src/BerndGoldschmidt/JsonPath/JsonPath.php:268-269 | The same loop, over any list of tokens. |
| Engine.JsonPath.Walk | src/BerndGoldschmidt/JsonPath/JsonPath.php:320-325 | `walk` calls the callback on every member in iteration order. The entries come out in that order, and the first error stops the loop. |
| Engine.JsonPath.CallOne | src/BerndGoldschmidt/JsonPath/JsonPath.php:323 | `call_user_func` dispatches to the callback that was passed. |
| Engine.JsonPath.CallbackLocatorAsterisk | src/BerndGoldschmidt/JsonPath/JsonPath.php:280-283 | Traces `m;x` at the same node. |
| Engine.JsonPath.CallbackLocatorDoubleDot | src/BerndGoldschmidt/JsonPath/JsonPath.php:292-297 | Traces `..;x` below member `m` when that member is an array, and does nothing otherwise. |
| Engine.JsonPath.CallbackLocationQuestionMarkPrefix | src/BerndGoldschmidt/JsonPath/JsonPath.php:306-311 | Traces `m;x` exactly when the filter passes on member `m`. Raises `EvalError` when `eval` fails on the filter. |
| Engine.JsonPath.Slice | src/BerndGoldschmidt/JsonPath/JsonPath.php:333-346 | Appends the entries of `SliceOutcome`: the `for` loop over the plan's indices. A negative step with start below end is reported as divergence. |
| Engine.JsonPath.SliceFor | src/BerndGoldschmidt/JsonPath/JsonPath.php:343-345 | The `for` loop appends the entries of `SliceLoop` from the start on. |
| Engine.JsonPath.SliceStep | src/BerndGoldschmidt/JsonPath/JsonPath.php:343-345 | One iteration traces index `i` and leaves the rest of the loop from `i + step`. |
| Engine.JsonPath.TraceNumeral | src/BerndGoldschmidt/JsonPath/JsonPath.php:344 | `trace($i . ";" . $expr)` for a numeral token. |
| Engine.TraceCases | src/BerndGoldschmidt/JsonPath/JsonPath.php:235-271 | Each branch of `trace` in the order PHP tests them: an existing key, `*`, `..`, a script (key, `EvalError` or out of fuel), a filter, a slice, a union, and nothing otherwise. |
| Engine.CallCases | src/BerndGoldschmidt/JsonPath/JsonPath.php:280-311 | The three callbacks, case by case, including the filter's pass, fail and error cases. |
| Engine.TraceEachCons | src/BerndGoldschmidt/JsonPath/JsonPath.php:268-269 | The union loop is the trace of the current piece followed by the rest. |
| Engine.WalkCons | src/BerndGoldschmidt/JsonPath/JsonPath.php:322-324 | `walk` is the callback for the current member followed by the rest. |
| Engine.ThenStep | src/BerndGoldschmidt/JsonPath/JsonPath.php:224 | Accumulating the entries of a step keeps the buffer in step with the matches so far, and an error stops the sequence. |
| MatcherProperties.ThenLaws | src/BerndGoldschmidt/JsonPath/JsonPath.php:235-271 | Traces run in sequence associate, `Nothing` is a unit on both sides, and a failure skips everything after it. |
| MatcherProperties.TraceFuel | src/BerndGoldschmidt/JsonPath/JsonPath.php:235-271 | A trace that did not run out of fuel has the same outcome, matches and error, for any larger fuel. The fuel bound of the model changes nothing that PHP completes. |
| Matcher.LocRestExplode | src/BerndGoldschmidt/JsonPath/JsonPath.php:241-243 | `$loc` is the first `;`-piece of the expression, and `$x` is the rest re-joined with `;`. |
| Matcher.TraceKey | src/BerndGoldschmidt/JsonPath/JsonPath.php:245-246 | An existing key descends into its child, and the path grows by `;key`. |
| MatcherProperties.KeyPrecedence | src/BerndGoldschmidt/JsonPath/JsonPath.php:245-246 | A token that is an existing key wins over every other token kind, even over `*`, `..` or a slice-shaped key. |
| MatcherProperties.TerminalStores | src/BerndGoldschmidt/JsonPath/JsonPath.php:237-240 | An empty expression matches exactly once, the current node at the current path, without error. |
| Matcher.ScriptCase | src/BerndGoldschmidt/JsonPath/JsonPath.php:252-261 | A script token traces `key;x` with the key that `evalx` returns, or raises `EvalError` when `eval` fails inside `evalx`. |
| Matcher.ScriptTrace | src/BerndGoldschmidt/JsonPath/JsonPath.php:253-260 | With a key from `evalx`, the script is replaced by that key in front of the same tail. |
| Matcher.ScriptUnfold | src/BerndGoldschmidt/JsonPath/JsonPath.php:252-261 | The script branch is `ScriptOutcome`. |
| Matcher.StarCase | src/BerndGoldschmidt/JsonPath/JsonPath.php:247-248 | `*` that is not a key walks the members with the `*` callback. |
| Matcher.FilterCase | src/BerndGoldschmidt/JsonPath/JsonPath.php:262-263 | A filter token walks the members with the `?(...)` callback. |
| Matcher.SliceCase | src/BerndGoldschmidt/JsonPath/JsonPath.php:264-266 | A slice token has its three groups and is traced by `SliceOutcome`. |
| Matcher.UnionCase | src/BerndGoldschmidt/JsonPath/JsonPath.php:267-269 | A union token traces each piece. |
| Matcher.NoMatchCase | src/BerndGoldschmidt/JsonPath/JsonPath.php:245-270 | A token that meets no branch matches nothing and raises nothing. |
| MatcherProperties.StarOrder | src/BerndGoldschmidt/JsonPath/JsonPath.php:247-248 | `*;x` traces `x` under every child, in member order, with the same tail. |
| MatcherProperties.DescendantOrder | src/BerndGoldschmidt/JsonPath/JsonPath.php:249-251 | `..;x` first traces `x` at the current node, then `..;x` below each array child in member order. The current node's matches therefore come first. |
| MatcherProperties.DescentBranch | src/BerndGoldschmidt/JsonPath/JsonPath.php:249-251 | The `..` branch is the trace of the tail followed by the walk with the `..` callback. |
| MatcherProperties.FilterOrder | src/BerndGoldschmidt/JsonPath/JsonPath.php:262-263 | A filter visits the members in order and traces the tail only under those that pass. |
| MatcherProperties.CallIsHead | src/BerndGoldschmidt/JsonPath/JsonPath.php:280-311 | Each callback on member i is the visit of that member as defined member by member. |
| MatcherProperties.WalkIsEachChild | src/BerndGoldschmidt/JsonPath/JsonPath.php:320-325 | `walk` from member i on is the list of visits of the members from i on, in order. |
| MatcherProperties.TraceEachIsTokens | src/BerndGoldschmidt/JsonPath/JsonPath.php:268-269 | The union loop is the trace of each token with the same tail, in listed order. |
| MatcherProperties.UnionTraces | src/BerndGoldschmidt/JsonPath/JsonPath.php:267-269 | A union token is the traces of its pieces, in listed order. |
| MatcherProperties.UnionOfKeys | src/BerndGoldschmidt/JsonPath/JsonPath.php:267-269 | A union of existing keys descends into each key in turn. |
| MatcherProperties.TokensOfKeys | src/BerndGoldschmidt/JsonPath/JsonPath.php:269 | Tracing existing keys one after the other is descending into each of them. |
| Matcher.Pieces | src/BerndGoldschmidt/JsonPath/JsonPath.php:268 | `preg_split("/'?,'?/")` gives at least one piece, and no piece contains `,` or (for a token) `;`. |
| Matcher.SliceGroups | src/BerndGoldschmidt/JsonPath/JsonPath.php:264 | A slice token yields three groups, each an optional `-` followed by digits. |
| Matcher.Plan | src/BerndGoldschmidt/JsonPath/JsonPath.php:335-341 | Empty or zero start, end and step become 0, length and 1. A negative start or end is offset by length and clamped at 0; a non-negative one is capped at length. |
| MatcherProperties.SliceTraces | src/BerndGoldschmidt/JsonPath/JsonPath.php:333-346 | With a positive step, a slice is the traces of its index tokens, in order. A negative step with start below end is the loop that never ends. |
| MatcherProperties.SliceUnfold | src/BerndGoldschmidt/JsonPath/JsonPath.php:333-346 | The slice branch with a positive step runs the loop from the plan's start. |
| MatcherProperties.SliceLoopFirst | src/BerndGoldschmidt/JsonPath/JsonPath.php:343-345 | The loop from the start traces the plan's tokens in order. |
| MatcherProperties.SliceLoopIsTokens | src/BerndGoldschmidt/JsonPath/JsonPath.php:343-345 | After the first pass, the loop traces the decimal renderings of `i, i+step, …` below the end. |
| MatcherProperties.SliceTokenValues | src/BerndGoldschmidt/JsonPath/JsonPath.php:336-345 | The slice visits start, start+step, … strictly below end. Every visited index lies in `[0, length)`, and each token is a numeral of that index. |
| Matcher.IndicesSpan | src/BerndGoldschmidt/JsonPath/JsonPath.php:343 | The k-th index of the loop is `i + k*step`, within `[i, end)`. |
| Matcher.SliceIndicesSpan | src/BerndGoldschmidt/JsonPath/JsonPath.php:343 | The k-th visited index is `start + k*step`, within `[start, end)`. |
| Matcher.SliceToken | src/BerndGoldschmidt/JsonPath/JsonPath.php:344 | Every token the slice loop traces is a numeral. |
| Matcher.SliceLoopUnfold | src/BerndGoldschmidt/JsonPath/JsonPath.php:343-345 | One pass of the loop is the trace of the current index followed by the loop from `i + step`. |
| MatcherProperties.SliceOneToFour | src/BerndGoldschmidt/JsonPath/JsonPath.php:335-343 | `1:4` over five members visits 1, 2, 3. |
| MatcherProperties.SliceLastTwo | src/BerndGoldschmidt/JsonPath/JsonPath.php:335-343 | `-2:` over five members visits 3, 4. |
| MatcherProperties.SliceEveryOther | src/BerndGoldschmidt/JsonPath/JsonPath.php:335-343 | `::2` over five members visits 0, 2, 4. |
| Locations.TraceReaches | src/BerndGoldschmidt/JsonPath/JsonPath.php:235-271 | Every match of a trace from a node extends the starting path by `;`-keys that lead from that node to the matched node. |
| Locations.QueryAddressed | src/BerndGoldschmidt/JsonPath/JsonPath.php:89-93 | Every match of a trace from the root at `$` is addressed in the document. |
| Locations.RootReaches | src/BerndGoldschmidt/JsonPath/JsonPath.php:89-93 | A match reached from the root is addressed in the document. |
| Document.Child | src/BerndGoldschmidt/JsonPath/JsonPath.php:245-246 | `$val[$loc]` is the member's value when the key exists, and `null` otherwise (also on a scalar). |
| Document.FindIndex | src/BerndGoldschmidt/JsonPath/JsonPath.php:245 | `array_key_exists`: the position of the member with that key, `None` exactly when there is none. |
| Prelude.JoinSplit | src/BerndGoldschmidt/JsonPath/JsonPath.php:241-243 | `implode(explode($s))` is `$s`. |
| Prelude.SplitJoin | src/BerndGoldschmidt/JsonPath/JsonPath.php:241-243 | `explode(implode($parts))` is `$parts` for parts free of the separator. |
| Prelude.Split | src/BerndGoldschmidt/JsonPath/JsonPath.php:241 | `explode` gives at least one piece, and no piece contains the separator. |
| Prelude.NatToStringValue | src/BerndGoldschmidt/JsonPath/JsonPath.php:344 | PHP's decimal rendering of an int reads back as that int, without leading zeros. |
| Store.JsonStore.constructor | src/BerndGoldschmidt/JsonPath/JsonStore.php:39-43 | A fresh engine with an empty accumulator, and `data` set as `setData` sets it: the array as it is, or the decoded string or object. |
| Store.JsonStore.SetData | src/BerndGoldschmidt/JsonPath/JsonStore.php:49-67 | Array data is stored unchanged (`fillFromArray`), and decoded data is stored as decoded. Any other type raises InvalidArgumentException and keeps `data`. |
| Store.JsonStore.ToArray | src/BerndGoldschmidt/JsonPath/JsonStore.php:120-127 | Returns `data` when it is an array and `[]` otherwise. |
| Store.JsonStore.NormalizedFirst | src/BerndGoldschmidt/JsonPath/JsonStore.php:273-289 | False for an empty path, the path itself on the fast path, and otherwise the engine's `PATH` answer on `data`. |
| StoreProperties.ResolvedPaths | src/BerndGoldschmidt/JsonPath/JsonStore.php:273-287 | `normalizedFirst` yields paths exactly when it is not on the fast path and the `PATH` query has results. The paths are then those results. |
| Store.JsonStore.Walk | src/BerndGoldschmidt/JsonPath/JsonStore.php:155-157 | The key loop of `get` reads the node at the keys, or `null` below a missing key. |
| StoreProperties.LocateGets | src/BerndGoldschmidt/JsonPath/JsonStore.php:155-157 | Along keys that exist, that loop reads exactly the located node. |
| Store.JsonStore.ValuesOf | src/BerndGoldschmidt/JsonPath/JsonStore.php:148-160 | One value per path, in order, each read at that path's keys. |
| StoreProperties.ValuesAtEach | src/BerndGoldschmidt/JsonPath/JsonStore.php:148-160 | The j-th value is the node at the keys of the j-th path. |
| Store.KeyLists | src/BerndGoldschmidt/JsonPath/JsonStore.php:150-153 | One key list per path, in order, each split the way `get` splits. |
| Store.JsonStore.Get | src/BerndGoldschmidt/JsonPath/JsonStore.php:137-183 | `[]` unless `normalizedFirst` yields paths. With paths, the values there in matcher order, deduplicated when `unique` is true. An exception from the engine is passed on. |
| StoreProperties.GetIsValueQuery | src/BerndGoldschmidt/JsonPath/JsonStore.php:137-164 | On a document with clean keys, `get` without `unique` returns exactly the entries of the `VALUE` query, for paths below the root. For a match of the root itself, it returns what the key `$` holds (`null` when there is none). |
| StoreProperties.ReadsMatch | src/BerndGoldschmidt/JsonPath/JsonStore.php:148-160 | Reading at a match's canonical path gives the matched node when the match lies below the root. |
| StoreProperties.UniqueDistinct | src/BerndGoldschmidt/JsonPath/JsonStore.php:166-182 | No two values that `unique` keeps are alike: equal string conversions for scalars, equal trees when the first value is an array. |
| StoreProperties.UniqueCovers | src/BerndGoldschmidt/JsonPath/JsonStore.php:166-182 | Every input value is alike some kept value, so only duplicates are dropped. |
| StoreProperties.UniqueKeepsFirst | src/BerndGoldschmidt/JsonPath/JsonStore.php:166-182 | The kept values are the input values at strictly increasing positions, the first value first. A position is kept exactly when no earlier value is alike it. |
| Store.JsonStore.Set | src/BerndGoldschmidt/JsonPath/JsonStore.php:193-206 | False and no change when nothing matched; the exception when the engine throws. Otherwise true, with the value written at every resolved location in turn. |
| Store.JsonStore.SetPaths | src/BerndGoldschmidt/JsonPath/JsonStore.php:201-203 | The by-reference `foreach` writes the value at each path's keys, in order. |
| StoreProperties.SetAllReads | src/BerndGoldschmidt/JsonPath/JsonStore.php:201-203 | After `set` at existing locations, any two of them the same or apart, every one of them holds the value. |
| StoreProperties.SetFirstElsewhere | src/BerndGoldschmidt/JsonPath/JsonStore.php:201-203 | A location apart from every written path (neither prefix of the other) is unchanged. |
| StoreProperties.ReplaceReads | src/BerndGoldschmidt/JsonPath/JsonStore.php:202 | After a write at an existing location, that location holds the value. |
| StoreProperties.ReplaceApart | src/BerndGoldschmidt/JsonPath/JsonStore.php:202 | A write leaves every location apart from it unchanged. |
| StoreProperties.ReplaceMissing | src/BerndGoldschmidt/JsonPath/JsonStore.php:202 | A write leaves the tree unchanged when the location does not exist. |
| StoreProperties.ReplaceBelow | src/BerndGoldschmidt/JsonPath/JsonStore.php:202 | Below a written location the tree is the written value. |
| StoreProperties.SetAllWellFormed | src/BerndGoldschmidt/JsonPath/JsonStore.php:201-203 | `set` keeps keys distinct and free of `;`. |
| Store.JsonStore.Add | src/BerndGoldschmidt/JsonPath/JsonStore.php:216-234 | False and no change when no parent matched; the exception when the engine throws. Otherwise true, with the value added to every matched parent in turn. |
| Store.JsonStore.AddPaths | src/BerndGoldschmidt/JsonPath/JsonStore.php:223-231 | The by-reference `foreach` adds the value under each parent, in order. |
| StoreProperties.AddedChildren | src/BerndGoldschmidt/JsonPath/JsonStore.php:224-230 | A parent that is not an array becomes one. The value then sits under `name`, or under the next free index, and every other key keeps its value. A new member is added unless `name` was already a key. |
| Store.NextIndex | src/BerndGoldschmidt/JsonPath/JsonStore.php:229 | `$parent[] =` uses an index above every non-negative integer key. |
| StoreProperties.NextIndexFresh | src/BerndGoldschmidt/JsonPath/JsonStore.php:229 | The appended index is never an existing key. |
| StoreProperties.AddAtPlaces | src/BerndGoldschmidt/JsonPath/JsonStore.php:223-231 | After adding at an existing parent, the parent's new key holds the value. |
| StoreProperties.AddBelowParent | src/BerndGoldschmidt/JsonPath/JsonStore.php:223-231 | The parent's other members are unchanged. |
| StoreProperties.AddAtElsewhere | src/BerndGoldschmidt/JsonPath/JsonStore.php:223-231 | Locations that are not on the path to the new member are unchanged. |
| StoreProperties.AddAllWellFormed | src/BerndGoldschmidt/JsonPath/JsonStore.php:223-231 | `add` keeps keys distinct and free of `;`. |
| Store.JsonStore.Remove | src/BerndGoldschmidt/JsonPath/JsonStore.php:242-266 | False and no change unless `normalizedFirst` yields paths; the exception when the engine throws. Otherwise true, with the last key of each path unset in turn. |
| Store.JsonStore.RemovePaths | src/BerndGoldschmidt/JsonPath/JsonStore.php:251-263 | The `foreach` removes each path, in order. |
| Store.JsonStore.RemoveKeys | src/BerndGoldschmidt/JsonPath/JsonStore.php:252-262 | Walks to the parent and unsets the last key. |
| StoreProperties.UnsetChildren | src/BerndGoldschmidt/JsonPath/JsonStore.php:262 | `unset` removes that key and keeps every other key and its value, without reindexing. |
| StoreProperties.WithoutChildren | src/BerndGoldschmidt/JsonPath/JsonStore.php:262 | The same, on a member list. |
| StoreProperties.RemoveAtRemoves | src/BerndGoldschmidt/JsonPath/JsonStore.php:252-262 | When the parent exists, the removed location no longer exists after `remove`. |
| StoreProperties.RemoveAtElsewhere | src/BerndGoldschmidt/JsonPath/JsonStore.php:252-262 | Removing one path leaves every location apart from it unchanged. |
| StoreProperties.RemoveAllElsewhere | src/BerndGoldschmidt/JsonPath/JsonStore.php:251-263 | Removing several paths leaves every location apart from all of them unchanged. |
| StoreProperties.RemoveAllWellFormed | src/BerndGoldschmidt/JsonPath/JsonStore.php:251-263 | `remove` keeps keys distinct and free of `;`. |

## Left out

- The body of `evalx` (PHP `eval` of rewritten user text) is an oracle parameter, the `Evaluator`. Only its two uses are modelled, and the exception a failing `eval` raises (`EvalError`). The `$res === false` branch (JsonPath.php:365-367) is never taken and is not modelled.
- JSON text and objects: `fillFromString`, `fillFromObject`, `fillFromTraversable`, `toString`, `prettyPrint` and both `toObject` methods are `json_encode`/`json_decode` calls. `setData` takes their result as `Decoded`. In `unique`, the encode and decode round trip is structural equality of trees.
- Floating-point scalars, and filter comparisons on them, are not modelled. Scalars are strings, integers, booleans and `null`.
- Engine.JsonPath.TempFilters models the callback of `normalize` as its authors meant it, receiving the captured group. As written it receives the matches array and raises a TypeError on its first call (`Engine.JsonPath.ScanMatches`, `Engine.JsonPath.Normalize`).
- Engine.JsonPath.ParkMatches parks as intended. As written, the first match of either pattern raises the TypeError instead (`Engine.JsonPath.ScanMatches`).
- Engine.JsonPath.ParkStep parks one match as intended. As written, parking a match raises the TypeError; only the step that keeps a character happens as stated.
- Engine.JsonPath.NormalizeIntended is `normalize` with the intended callback. No query calls it; `Engine.JsonPath.Query` calls the as-written `Engine.JsonPath.Normalize`.
- PathNormalization.FilterPark is stated about the intended `Normalizer.Normalize`. As written, the first script or filter step raises a TypeError instead (`PathNormalization.PathRaises`).
- PathNormalization.QuotedPark is stated about the intended `Normalizer.Normalize`. As written, the first quoted key raises a TypeError instead (`PathNormalization.PathRaises`).
- PathNormalization.PathNormalizes is stated about the intended `Normalizer.Normalize`. As written, a path with a quoted key, a script or a filter raises a TypeError instead, and a path of plain steps gives the same tokens (`PathNormalization.PathRaises`).
- PathNormalization.BookCategoriesNormalize is stated about the intended `Normalizer.Normalize`. As written, the plain path comes through the same (`PathNormalization.BookCategoriesAsWritten`).
- PathNormalization.CategoriesNormalize is stated about the intended `Normalizer.Normalize`. As written, the plain path comes through the same (`PathNormalization.PathRaises`).
- PathNormalization.QuotedStoreNormalize is stated about the intended `Normalizer.Normalize`. As written, `$['store'].book[0]` raises a TypeError instead (`PathNormalization.QuotedStoreRaises`).
- PathNormalization.FilterNormalize is stated about the intended `Normalizer.Normalize`. As written, `$..book[?(b)]` raises a TypeError instead (`PathNormalization.FilterRaises`).
- PathNormalization.PathNormalizes: the closed form covers paths whose steps avoid the characters the passes act on: plain keys and bracketed tokens without `.`, `[`, `]`, `'`, `;` or `#`, quoted keys without `'` or `[`, and script bodies without `'` or `]`. Other paths, such as filters holding quoted strings or nested brackets, follow `Normalizer.Normalize`, but no closed form is proved for them.
- PCRE's handling of newlines is not modelled: `.` does not cross `\n`, and `$` can also match before a final `\n`.
- Matcher.Trace: a script whose key is again a script can make PHP recurse without end. The model bounds script steps by `fuel` and reports `OutOfFuel` when the bound runs out. `MatcherProperties.TraceFuel` and `QueryProperties.AnsweredFuel` show that any outcome other than `OutOfFuel` stays the same for every larger bound.
- Matcher.SliceOutcome: a negative step with start below end loops forever in PHP. The model reports it as `Diverges` instead of looping.
- Engine.JsonPath.Query requires an array document: `jsonPath` is typed `array $array`, and PHP raises a TypeError before the body runs. `Store.Resolved` reports that TypeError as `NotArray` when the store's data is not an array.
- Under PHP 8, `count` raises a TypeError on a scalar in `slice`. `Count` follows PHP 7, which counts a scalar as 1.
- Keys containing `;` cannot survive `explode(";")`. Every document is `WellFormed` (distinct keys, none with `;`), a precondition throughout.
- StoreProperties.KeysRoundTrip, StoreProperties.GetIsValueQuery and StoreProperties.ReadsMatch hold only for keys without `'`, `"` or `]` (`Clean`, `CleanKeys`). Such keys break the path split in PHP.
- PHP's loose key coercion (`"0"` and `0` as the same key) is not modelled: every key is a string.
- Store.JsonStore.Get, Set, Add and Remove: `$o =& $o[$k]` creates missing keys (autovivification). The model reads `null` below a missing key and leaves the tree unchanged there.
- Store.JsonStore.Set, Add and Remove apply their paths one after the other to a value tree. The aliasing of PHP references is not modelled: for example, an ancestor and a descendant that are both matched by `..`, or references kept in `$values` and written through later.
- Store.NextIndex: PHP remembers the next free index of an array even after `unset`. The model takes one more than the largest non-negative integer key present.
- Store.UniqueValues: `array_unique` keeps the original keys of the kept values. The model returns the list in order, so non-consecutive keys are not represented.
- Store.JsonStore.constructor: `__construct` throws `InvalidArgumentException` when `setData` refuses its argument. No object is made then, so the model's constructor requires an argument that `setData` accepts.
- Engine.JsonPath.StrPosArray: `strpos` counts bytes, so for text outside ASCII the cut-off of 10000 is measured in bytes. The model counts characters.
- Integer bounds (`PHP_INT_MAX`) in slice arithmetic are not modelled: integers are unbounded.
- The test `testGetAllByKeyFiltered` (tests/JsonStoreTest.php:103-110) is skipped in the package. Its query `$..book[(@.code=='02.01')].category` holds a script, so as written `get` raises the TypeError of `normalize` (`QueryProperties.ParkedPathRaises`).
- `$args` other than an array with an optional string `resultType` is not modelled. It is an `Option<string>` here.
- `getData`, `getJsonPath` and `setJsonPath` are accessors and are not modelled.

## Findings

| source | as written | input that shows it | evidently intended | confidence | as-written member | corrected member |
|---|---|---|---|---|---|---|
| src/BerndGoldschmidt/JsonPath/JsonPath.php:136 | `tempFilters(string $filter)` is the callback of `preg_replace_callback` (lines 110-114), which passes it the array of matches. PHP 7 and later refuse the array with a TypeError, so `normalize`, `jsonPath`, `get`, `set`, `add` and `remove` raise on any path with a filter, a script or a quoted key. | `jsonPath($data, "$['store'].book[0]")`; likewise `$..book[?(@.price<10)]`, `$..book[(@.length-1)]` and `$['a','c']` | the parameter is the matches array and `$filter[1]`, the captured group, is parked, as the body reads it | high; not executed | PathNormalization.QuotedStoreRaises | PathNormalization.PathNormalizes |

The engine keeps the behaviour as written, since that is what every caller of `jsonPath` gets: `Normalizer.NormalizeAsWritten`, `Engine.JsonPath.Normalize` and `QueryProperties.QuotedStoreQueryRaises`. The corrected parking is `Normalizer.Normalize` with `Engine.JsonPath.NormalizeIntended`. `PathNormalization.PathNormalizes` and its examples are proved about it, and `NormalizerProperties.NormalizeAgrees` shows that the two agree on every path the written code does not reject.
