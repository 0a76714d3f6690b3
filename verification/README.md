# cvrf-review in Dafny

cvrf-review is a command-line tool, also shipped as a WebAssembly page, for reviewing
Fortinet security advisories. The advisories are cached as CVRF (Common Vulnerability
Reporting Framework) documents that were converted from XML to JSON. This project
models the core of the tool and proves properties about that model:

- **The JSON shape repair** (`main.go`). Before typed decoding, the tool repairs the
  cached advisory JSON in four steps:
  - it deletes namespace and attribute markers from the raw text;
  - it checks that the `cvrfdoc` envelope is an object;
  - it turns elements that occurred once in the XML back into lists (`toStringSlice`,
    `toInterfaceSlice`);
  - it repairs the product tree recursively (`normalizeBranches`), then de-wraps its root
    once.
- **Filtering and lookup** (`main.go`):
  - the CVSS v3.1 severity bands (`severitytoCVSS`);
  - the score and product-type filter (`filterCVRF`);
  - the exact-identifier product lookup (`contains` and the loop of
    `getAffectedAdvisories`).
- **The typed record** (`pkg/fortinet/types.go`). `ReferenceList.UnmarshalJSON` accepts
  one reference object or an array of them.
- **The web page's terminal-to-HTML converter** (`main.js`, `ansiToHtml`). It turns ANSI
  SGR escape sequences into nested `<span>` elements and HTML-escapes the text around
  them.
- **The version validator** `isFullVersion`, as its behaviour table in `version_test.go`
  fixes it.

Modules:

| module | file | contents |
|---|---|---|
| `Wrappers` | `wrappers.dfy` | `Option`, `Result` |
| `Strings` | `strings.dfy` | Go's `TrimSpace`, `ToLower`, `ReplaceAll`; `Split`/`Join` on one character |
| `Json` | `json.dfy` | the decoded JSON value (`interface{}`) |
| `Coerce` | `coerce.dfy` | `toStringSlice`, `toInterfaceSlice` |
| `Branches` | `branches.dfy` | `normalizeBranches` (a method proved equal to a recursive function) and the root de-wrap |
| `Document` | `document.dfy` | key stripping, the envelope check, the whole pre-pass |
| `Cvrf` | `cvrf.dfy` | the `CVRF` record; `ReferenceList` as a class with `UnmarshalJSON` |
| `Score` | `score.dfy` | `ParseFloat` on decimal text, the severity rating scale |
| `Filter` | `filter.dfy` | `contains`; class `Filter`, whose fields are the criteria the source keeps in package globals |
| `Ansi` | `ansi.dfy` | `ansiToHtml` as a method with loops, proved equal to a functional specification |
| `Version` | `version.dfy` | `isFullVersion` |

The product-type test of `filterCVRF` compares the requested type with the branch `Name`
exactly, without trimming either side (main.go:311).

The source of `isFullVersion` is not part of this model. `Version.IsFullVersion` is a
rule consistent with every row of its table (version_test.go:6-23):
- trim surrounding white space;
- split on `.`;
- require exactly three groups, each non-empty and made only of the ASCII digits 0-9.

## Model

| member | source | states |
|---|---|---|
| Strings.TrimSpace | main.go:138 | the result is a slice of the input that neither starts nor ends with white space |
| Strings.TrimSpaceOfTrimmed | main.go:138 | a string that neither starts nor ends with white space is left unchanged; with `TrimSpacePadded` this fixes the result of trimming exactly |
| Strings.TrimSpaceIdempotent | main.go:289 | trimming twice is trimming once |
| Strings.TrimSpacePadded | main.go:289 | white space added on either side is removed again |
| Strings.ToLower | main.go:49 | same length, each rune lower-cased; no ASCII capital remains |
| Strings.ToLowerIdempotent | main.go:49 | lower-casing twice is lower-casing once |
| Strings.Split | main.js:75 | at least one piece, no piece holds the separator, and joining the pieces with it gives back the input |
| Strings.SplitJoin | main.js:75 | splitting separator-free pieces joined by the separator recovers exactly those pieces |
| Strings.ReplaceAll | main.go:155-159 | Go's `strings.ReplaceAll`: non-overlapping occurrences, found left to right, replaced; the lemmas below state what is replaced and what is copied |
| Strings.ReplaceAllAtMatch | main.go:155-159 | an occurrence at the front is replaced, and the search resumes right after it |
| Strings.ReplaceAllSkip | main.go:155-159 | a prefix in which no occurrence starts is copied unchanged |
| Strings.ReplaceAllFront | main.go:155-159 | an occurrence at the front is replaced, and a rest lacking some rune of the pattern is copied unchanged |
| Strings.ReplaceAllSkipRune | main.go:155-159 | a first rune that does not start the pattern is copied unchanged |
| Strings.ReplaceAllMissingRune | main.go:155-159 | a pattern with a rune that does not appear in the text, from the rune's index on, cannot occur, so nothing is replaced |
| Strings.ReplaceAllWithout | main.go:155-159 | the same, for text `x + y` where `y` lacks the rune and `x` is shorter than its index |
| Strings.ReplaceAllAbsent | main.go:156-159 | a pattern that never occurs leaves the text unchanged |
| Strings.ReplaceAllSelf | main.go:156-159 | replacing a pattern by itself leaves the text unchanged |
| Strings.ReplaceAllDeleteShrinks | main.go:156-157 | deleting a non-empty pattern never lengthens the text |
| Coerce.ToStringSlice | main.go:240-257 | the loop yields `StringSliceOf`: the string elements of a list in order, a bare string as a one-element list, `nil` for anything else |
| Coerce.StringsAppend | main.go:243-248 | the string filter distributes over concatenation, so it keeps exactly the strings and in order |
| Coerce.StringsOfStrList | main.go:244-249 | a list made only of strings keeps every element |
| Coerce.StoreStrings | main.go:172 | the value written back is a list whose elements are exactly the coerced strings, in order and nothing else, or `null` for `nil` |
| Coerce.StringSliceIdempotent | main.go:240-257 | coercing an already coerced value gives the same result |
| Coerce.StringSliceSingleton | main.go:252-253 | a bare string and a one-element list of it coerce alike |
| Coerce.ToInterfaceSlice | main.go:259-268 | a list is kept as it is, an object becomes a one-element list, anything else (a bare string included) is `nil` |
| Coerce.StoreList | main.go:183-200 | the coerced value as it is written back: the list, or `null` for `nil` |
| Coerce.InterfaceSliceIdempotent | main.go:259-268 | coercing an already coerced value changes nothing |
| Coerce.InterfaceSliceSingleton | main.go:263-264 | a single object and a one-element list of it coerce alike |
| Branches.NormBranches | main.go:270-285 | the repair keeps every key and changes no field other than `Branch` |
| Branches.NormalizeBranches | main.go:270-285 | the in-place loop over the `Branch` list, with its recursive calls, computes `NormBranches` |
| Branches.BranchLevel | main.go:272-282 | one level: a single object becomes a one-element list of its repaired self; a list keeps its length and order, with its objects repaired and other elements kept; any other value is untouched |
| Branches.NormBranchesNormalizes | main.go:270-285 | after the repair no `Branch` reached through objects is an object, at any depth |
| Branches.NormBranchesFixes | main.go:270-285 | a tree already in that form is left unchanged |
| Branches.NormBranchesFixpointIff | main.go:270-285 | the repair changes nothing exactly when the tree is already normalised |
| Branches.NormBranchesIdempotent | main.go:270-285 | repairing twice is repairing once |
| Branches.DewrapRoot | main.go:206-210 | the de-wrap keeps every key and changes no field other than `Branch` |
| Branches.DewrapRootCases | main.go:206-210 | the root `Branch` is replaced by its element exactly when it is a one-element list holding an object; otherwise nothing changes |
| Branches.NormalizeProductTree | main.go:204-212 | the product-tree step: the recursive repair, then the root de-wrap once; its property is the lemma below |
| Branches.NormalizeProductTreeIdempotent | main.go:204-212 | repair then de-wrap, done twice, is done once |
| Document.StripKeys | main.go:155-159 | the four textual rewrites, in the source's order: delete `cvrf-common:`, delete `cvrf:`, drop the `@` after a quote, rename `"#text"` to `"text"`; the `StripKeys` lemmas below state each outcome on a key |
| Document.StripKeysAttribute | main.go:158 | an attribute key `"@k"` becomes `"k"`, for a key name holding no `:`, `@` or `#` |
| Document.StripKeysNamespace | main.go:157 | a key `"cvrf:k"` becomes `"k"` |
| Document.StripKeysCommonNamespace | main.go:156 | a key `"cvrf-common:k"` becomes `"k"` |
| Document.StripKeysText | main.go:159 | the key `"#text"` becomes `"text"` |
| Document.QuotedKeyKept | main.go:156-159 | a quoted key passes any of the rewrites whose pattern holds a rune the key lacks |
| Document.QuotedPrefixDropped | main.go:156-157 | a quoted key starting with a namespace prefix loses that prefix |
| Document.QuotedKeyPassesPrefixes | main.go:156-158 | a quoted key with no `:` or `@` passes the first three rewrites unchanged |
| Document.StripKeysClean | main.go:155-159 | text holding none of the four markers passes through the stripping unchanged |
| Document.PrePass | main.go:170-212 | the guarded coercions and the product-tree repair, in the source's order; its properties are the `PrePass` lemmas below |
| Document.Load | main.go:165-168 | a missing or non-object `cvrfdoc` is an error; otherwise the result is the pre-pass of that object |
| Document.ListInKeys | main.go:189-201 | one list coercion keeps all keys, changes nothing outside its parent, and keeps the parent's keys |
| Document.PrePassKeys | main.go:170-212 | the pre-pass adds and removes no top-level key |
| Document.PrePassOthersUnchanged | main.go:170-212 | top-level fields other than the five repaired ones are untouched |
| Document.PrePassVulnerabilityKeys | main.go:170-186 | an object-valued `Vulnerability` keeps exactly its keys |
| Document.PrePassCoerces | main.go:170-186 | `CVE` is present after the pre-pass exactly when it was before, and then holds the coerced strings; `References.Reference` holds the coerced list |
| Document.PrePassCoercesProductID | main.go:174-180 | when `ProductStatuses` and `Status` are objects, `ProductID` is present after the pre-pass exactly when it was before, and then holds the coerced strings |
| Document.PrePassCoercesLists | main.go:188-202 | `DocumentNotes.Note`, `DocumentReferences.Reference` and `Acknowledgments.Acknowledgment`: with an object parent, each is present after the pre-pass exactly when it was before, and then holds the coerced list |
| Document.PrePassPointwise | main.go:170-212 | the sequence of guarded in-place updates equals one independent repair per top-level key |
| Document.RepairFieldIdempotent | main.go:170-212 | each per-key repair is idempotent |
| Document.PrePassIdempotent | main.go:170-212 | running the pre-pass on its own output changes nothing |
| Cvrf.DecodeReference | pkg/fortinet/types.go:126-127 | `json.Unmarshal` into `reference`: `null` gives the zero value; an object fills `URL` from key `url`, else `URL`, and `Description` likewise, a field of the wrong type being an error; any other value is an error; `DecodeEncodeReference` states that it inverts encoding |
| Cvrf.DecodeArray | pkg/fortinet/types.go:120-121 | the array attempt: `null` gives the empty list, an array decodes element by element (`DecodeElements`), anything else is an error |
| Cvrf.DecodeElements | pkg/fortinet/types.go:120-121 | an array decodes exactly when every element does, to the same number of references in order |
| Cvrf.ReferenceList.UnmarshalJSON | pkg/fortinet/types.go:119-132 | succeeds exactly when the array form or the single-object form decodes; on success the list is that decoding, and on failure the receiver is unchanged |
| Cvrf.SingleObjectAsSingleton | pkg/fortinet/types.go:119-132 | one object decodes exactly as a one-element array holding it |
| Cvrf.ArrayKeepsOrder | pkg/fortinet/types.go:120-123 | an array of reference objects gives the same references in the same order, never wrapped; `null` gives the empty list |
| Cvrf.ScalarsRejected | pkg/fortinet/types.go:126-129 | strings, numbers and booleans are errors |
| Cvrf.EncodeReferences | pkg/fortinet/types.go:112-115 | encoding gives an array with one encoded object per reference, in order |
| Cvrf.DecodeEncodeReference | pkg/fortinet/types.go:112-115 | decoding an encoded reference gives it back |
| Cvrf.RoundTrip | pkg/fortinet/types.go:117-132 | decoding an encoded reference list gives back the same list |
| Score.ParseDecimal | main.go:230 | `strconv.ParseFloat` on decimal text; leading white space is not skipped, so padded text does not parse |
| Score.ParseDecimalHasDigit | main.go:230 | text that parses holds at least one digit |
| Score.ParseScore | main.go:299 | text that parses scores its parsed value, and a non-zero score is a parsed value; the parse error is discarded, so text that does not parse scores 0 |
| Score.ParseFormatTenths | main.go:230 | a one-decimal score text such as `9.8` parses to its value |
| Score.ParseScoreTenths | main.go:299 | a one-decimal score text such as `9.8` scores exactly its value |
| Score.NonNumericScoresZero | main.go:299 | text that starts with no sign, point or digit does not parse and scores 0 (the `Inf` and `NaN` spellings are the exception noted under Left out) |
| Score.SeverityBand | main.go:48-63 | a label has a band exactly when its lower-case form names a row of the rating scale, and the band is that row's bounds |
| Score.SeverityBandCaseInsensitive | main.go:49 | a label and its lower-case form select the same band |
| Score.BandsPartitionScale | main.go:50-61 | every one-decimal score from 0.1 to 10.0 lies in exactly one band, and 0.0 in none |
| Filter.ProductID | main.go:138 | the lookup identifier `trim(product)-trim(version)` |
| Filter.LoadAdvisory | main.go:155-224 | one cached file: key stripping, `json.Unmarshal`, the envelope check and pre-pass, then the typed decoder; the first failure is the result |
| Filter.Contains | main.go:287-294 | true exactly when some element, once trimmed, equals the target |
| Filter.Filter.constructor | main.go:406-408 | the criteria start as given: the flag values, whose defaults are 0.0, 10.0 and (from the `product-types` flag at main.go:398) no types |
| Filter.Filter.SeverityToCVSS | main.go:48-63 | a known label in any letter case sets the band of its row; any other label leaves the band as it was; the product types are untouched |
| Filter.Filter.FilterCVRF | main.go:297-322 | true exactly when the score is within the inclusive band and, if types were requested, some requested type equals the name of an immediate child of the top-level branch |
| Filter.Filter.GetAffectedAdvisories | main.go:136-238 | the loop returns `Affected`: the first load error, or the advisories in file order that list `trim(product)-trim(version)` and score within the band |
| Filter.AffectedSound | main.go:226-235 | every returned advisory lists the identifier and scores within the band |
| Filter.AffectedComplete | main.go:148-235 | the lookup fails exactly when some file fails to load; on success every selected advisory is returned |
| Filter.ProductIDTrims | main.go:138 | white space around the product or version does not change the identifier |
| Filter.ContainsUnpadded | main.go:287-294 | on entries without surrounding white space the lookup is plain membership |
| Filter.ExactMatchOnly | main.go:287-294 | 6.4.1 and 6.4.10 do not match each other, and the empty list holds nothing |
| Filter.FixtureClientEMSListed | main_test.go:13-19 | FortiClientEMS 7.2.2 is found in a list naming it |
| Filter.FixtureClientEMSUnlisted | main_test.go:20-26 | FortiClientEMS 7.2.3 is not found there |
| Filter.FixtureFortiOSListed | main_test.go:27-33 | FortiOS 6.4.10 is found in a list naming it |
| Filter.FixtureFortiOSUnlisted | main_test.go:34-40 | FortiOS 6.4.11 is not found there |
| Filter.ContainsSingle | main.go:288-290 | a one-entry list holds exactly its trimmed entry |
| Filter.PaddedEntryFound | main.go:289 | white space around a listed entry does not hide it |
| Filter.FullRangeKeeps | main.go:297-322 | with the default band 0.0..10.0 and no types, every advisory whose score parses into that range is kept |
| Filter.UnparsableScoreFails | main.go:299-304 | an unparsable score counts as 0 and fails every band with a positive minimum |
| Filter.ProductTypeReadsSecondLevel | main.go:307-321 | the product-type test reads only the names of the second level |
| Ansi.Esc | main.js:67 | escaping never shortens the text, and keeps its length exactly when the text holds none of the five special characters |
| Ansi.EscChar | main.js:67 | each of `& < > " '` becomes an entity starting with `&` and ending with `;`; every other character is kept |
| Ansi.EscAppend | main.js:67 | escaping distributes over concatenation |
| Ansi.EscPlain | main.js:67 | text with none of the five characters is unchanged |
| Ansi.EscHasNoMarkup | main.js:67 | escaped text holds no `<`, `>`, `"` or `'` |
| Ansi.UnescapeEsc | main.js:67 | decoding the five entities undoes the escaping: no information is lost |
| Ansi.ParamEnd | main.js:70 | the maximal run of digits and `;` from a position |
| Ansi.SgrParams | main.js:70 | a recognised sequence is `ESC [`, a non-empty run of digits and `;`, and `m` |
| Ansi.NextSgr | main.js:70-73 | finds the leftmost sequence at or after a position, or reports that none follows |
| Ansi.Lex | main.js:70-88 | the text cut into plain chunks and whole sequences, leftmost match first, always ending with a plain chunk |
| Ansi.UnlexLex | main.js:73-89 | the lexed pieces (text chunks and whole sequences) put back together give the input |
| Ansi.LexParams | main.js:70-76 | every sequence's parameters are a non-empty run of digits and `;` |
| Ansi.ColorOf | main.js:49-66 | a code has a colour exactly when it is `3x` or `9x` with x from 0 to 7 |
| Ansi.StandardColors | main.js:50-57 | codes 30-37 map to the eight standard colour variables |
| Ansi.BrightColors | main.js:58-65 | codes 90-97 map to the eight bright colour variables |
| Ansi.ColorTableKeys | main.js:49-66 | the colour table's keys are exactly the sixteen listed codes |
| Ansi.PopAll | main.js:77-78 | emptying the stack writes one `</span>` per open span |
| Ansi.ApplyCode | main.js:76-86 | code 0 closes every open span and empties the stack; code 1 and colour codes open one span; every other code writes nothing and leaves the stack as it was |
| Ansi.ApplyCodes | main.js:75-86 | a sequence's codes are applied left to right |
| Ansi.AnsiToHtml | main.js:47-92 | the converter's loop computes `ToHtml`: escaped chunks, each sequence's codes in order, and a close for every span left open |
| Ansi.ToHtmlRendersTranslation | main.js:47-92 | the output is the rendering of a tag sequence of texts, opens and closes |
| Ansi.EmitBalanced | main.js:77-90 | from any depth, the emitted tags never close more than is open and end with nothing open |
| Ansi.SpansBalanced | main.js:79-85 | every span opened is closed by the end of the output, and no prefix of the output closes more spans than it opened |
| Ansi.TextsCopied | main.js:73-89 | the text parts of the output are the input's plain chunks, in order |
| Ansi.TextOutsideSequences | main.js:73-89 | the output text is the input with exactly its recognised sequences cut out |
| Ansi.NoSequenceOnlyEscaped | main.js:89 | text with no sequence is only escaped |
| Version.IsFullVersion | version_test.go:6-23 | a validator consistent with every table row: trim, split on `.`, exactly three groups each of one or more ASCII digits; `FullVersionShape` states what it accepts |
| Version.Groups | version_test.go:14 | the dot-separated pieces of the trimmed input, which join back to it |
| Version.AcceptsDotted | version_test.go:10-13 | any three non-empty digit groups joined by dots are accepted |
| Version.AcceptedIsDotted | version_test.go:10-22 | an accepted input is, once trimmed, three digit groups joined by dots |
| Version.FullVersionShape | version_test.go:10-22 | accepted exactly when the trimmed input is three non-empty digit groups joined by dots |
| Version.PaddingIgnored | version_test.go:14 | white space around the input never changes the verdict |
| Version.TrimmedSameVerdict | version_test.go:14 | checking the trimmed input gives the same verdict |
| Version.AcceptedCharacters | version_test.go:20-22 | an accepted input holds only digits and dots once trimmed |
| Version.AcceptsSingleDigitGroups | version_test.go:10 | `6.4.2` is accepted |
| Version.AcceptsTwoDigitGroup | version_test.go:11 | `7.0.14` is accepted |
| Version.AcceptsZeroGroups | version_test.go:12 | `0.0.1` is accepted |
| Version.AcceptsLeadingTwoDigitGroups | version_test.go:13 | `10.12.0` is accepted |
| Version.AcceptsPaddedVersion | version_test.go:14 | ` 7.0.14 ` is accepted |
| Version.RejectsEmpty | version_test.go:15 | the empty string is rejected |
| Version.RejectsOneGroup | version_test.go:16 | `7` is rejected |
| Version.RejectsTwoGroups | version_test.go:17 | `7.0` is rejected |
| Version.RejectsTrailingEmptyGroup | version_test.go:18 | `7.0.` is rejected |
| Version.RejectsInnerEmptyGroup | version_test.go:19 | `7..0` is rejected |
| Version.RejectsLetters | version_test.go:20 | `a.b.c` is rejected |
| Version.RejectsFourGroups | version_test.go:21 | `7.0.14.1` is rejected |
| Version.RejectsSuffix | version_test.go:22 | `7.0.14-beta` is rejected |

## Left out

- I/O is not modelled; the loaded values are parameters instead:
  - `GetAffectedAdvisories` takes the files' contents in the order the glob lists them;
  - glob and read errors (main.go:143-153) are not modelled.
- `json.Unmarshal` of the stripped text and the `mapstructure` decoder are foreign library
  code. They are function parameters (`unmarshal`, `decode`) of `Filter.LoadAdvisory`.
- `ReferenceList.UnmarshalJSON` takes the parsed JSON value rather than its bytes.
  - Field matching follows the struct tag and then the CVRF spelling (`URL`,
    `Description`).
  - The case-insensitive key matching of `encoding/json` beyond those two spellings is not
    modelled.
- Go map aliasing is not modelled. `normalizeBranches` and the pre-pass update shared maps
  in place, and the model works on values. `Branches.NormalizeBranches` keeps the in-place
  loop over the list, but the list is a value.
- Coerce.ToStringSlice: the `[]string` case (main.go:250-251) is not modelled, because a
  decoded JSON value is never a `[]string`. A coercion that was already applied is written
  back as a list of strings, and that list coerces to the same strings
  (`Coerce.StringSliceIdempotent`).
- A nil slice and an empty slice are both the empty sequence, wherever the source's
  behaviour does not tell them apart.
- Score.ParseDecimal does not model all of `strconv.ParseFloat`:
  - decimal text with an optional sign, fraction and exponent is modelled;
  - hexadecimal floats, `Inf`, `NaN`, underscores, range errors and float64 rounding are
    not;
  - scores are exact `real` values.
- Score.NonNumericScoresZero and Score.ParseScore score the `Inf` and `NaN` spellings
  (any letter case, `Infinity` too) as 0. In Go, `ParseFloat` accepts them. A `NaN` score
  then passes every band, because both comparisons at main.go:302 are false for NaN, and
  an infinite score fails every band. The model instead scores such text 0, which passes
  only a band whose minimum is 0.
- Version.IsFullVersion decides inputs that the table leaves open, by its own choice:
  - a sign before a group, such as `+7.0.1`, is rejected (a per-group `strconv.Atoi`
    would accept it);
  - digits other than ASCII `0`-`9` are rejected;
  - white space inside a group, such as `7. 0.1`, is rejected.
- Strings.ToLower lower-cases ASCII letters and the two non-ASCII runes whose lower case is
  ASCII (U+0130, U+212A). Other runes are kept, which cannot change a comparison with the
  four ASCII labels.
- Go strings are UTF-8 bytes and the `strings` functions decode them rune by rune; the
  model works on sequences of runes (`seq<char>`), so invalid UTF-8 is not modelled.
- JavaScript strings are sequences of UTF-16 code units; the converter is modelled over
  `seq<char>`.
- Ansi.ColorOf defines the colour table by its structure. `Ansi.StandardColors`,
  `Ansi.BrightColors` and `Ansi.ColorTableKeys` prove that it equals the sixteen listed
  entries.
- Filter.FixtureClientEMSListed, Filter.FixtureClientEMSUnlisted,
  Filter.FixtureFortiOSListed and Filter.FixtureFortiOSUnlisted check the lookup against
  stand-in identifier lists. The cached advisory files are not part of this model.
- Version rows are written with `Version.Dotted`, which builds the same strings: for
  example `Dotted("6", "4", "2")` is `6.4.2`.
- `printCVRF` is not modelled (main.go:324-388): it is table rendering, including the
  regex-driven note reformatting and the note-skip test.
- cobra command wiring and flags (main.go:65-132, 390-420) are not modelled. The
  `Filter` constructor takes the flag values.
- Not modelled in `main.js`:
  - the WebAssembly bootstrap;
  - theme handling;
  - the product list fetch;
  - the button handler (main.js:1-45, 94-178).
- pkg/fortinet/fortinet.go, the scripts and wasm/main.go are not part of this model:
  network fetching, XML conversion and JavaScript bindings.
