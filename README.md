# marketintel: the CSV ingestion and query pipeline, in Dafny

This project models the client-side data pipeline of the marketintel web pages. The
model covers:

- **Screener** (`app/screener/page.tsx`). Its parts:
  - a character-by-character CSV reader;
  - header-alias column resolution;
  - canonical rows with a cap-bucket ordinal;
  - a Top-100 tag computed once at load, over the whole table;
  - an AND-composed filter;
  - a stable, direction-multiplied sort with blank values last, and the header-click sort state;
  - the score tiers.
- **Relative-strength page** (`app/module-1/page.tsx`). It is an earlier copy of the same pipeline. It differs in:
  - its blank test;
  - trimmed alias matching;
  - rows normalised by successive property assignment;
  - an industry filter and a ticker-only search;
  - a separate direction toggle;
  - the as-of fallback text.
- **Home page** (`app/page.tsx`). Its parts:
  - the blank test;
  - the first-present-key lookup `getField`;
  - the tier-table index;
  - the dash paths of `fmtPct`;
  - the tier-metadata rule.
- **Navigation bar** (`app/components/TopNav.tsx`): class-name joining, and the rule that marks a link active.

Modules:

| module | file | contents |
|---|---|---|
| `Text` | `text.dfy` | `trim` with the JavaScript white-space set, ASCII case mapping, `includes` and `startsWith` |
| `Values` | `values.dfy` | a JavaScript value as a CSV cell or JSON scalar. It holds `String(v)`, truthiness, and `Number(s)` as an exact decimal parser. |
| `Seqs` | `seqs.dfy` | `filter`, subsequences, insertion-ordered `Set` |
| `Ordering` | `ordering.dfy` | the blank-last sign comparator, and a stable insertion sort standing for `Array.prototype.sort` |
| `Csv` | `csv.dfy` | the reader shared by both pages. `Run` specifies the character loop and the method `Lex` implements it. Also: the header-keyed objects, and a writer whose output reads back. |
| `Columns` | `columns.dfy` | the `Map` from normalised header names, and the early-return alias loop shared by `pick` and `pickKey` |
| `Screener` | `screener.dfy` | the screener page |
| `RelativeStrength` | `module1.dfy` | the relative-strength page |
| `Home` | `home.dfy` | the home page |
| `TopNav` | `topnav.dfy` | the navigation bar |

Form of the model:

- **Imperative source becomes methods.** This covers:
  - the CSV character loop with its `push`/`row` closures (`Csv.Lex`);
  - the object fill (`Csv.FillObject`);
  - the `Map` construction and the alias loops (`Columns.BuildIndex`, `Columns.Pick`);
  - the in-place `_top100` assignment over an array (`Screener.TagRows`);
  - the successive assignments of `normalizeRows` (`RelativeStrength.NormalizeRow`);
  - the loops of `getField` and `indexTierTable`.

  Each method is proved equal to a specification function. The properties are then proved about that function.
- **Pure memos and helpers become functions and lemmas.**
- **The fetched text is a parameter.** `Screener.Load` starts from it; the fetch itself is not modelled.
- **Two pages share one reader.** Their `parseCSV` functions are the same state machine, so the `Csv` module models both. Their rows are objects whose properties are ordered `(key, value)` entries.

## Model

| member | source | states |
|---|---|---|
| Text.Trim | app/screener/page.tsx:14 | after `trim()` the text neither starts nor ends with a JavaScript white-space character, and is no longer than before |
| Text.TrimSpec | app/screener/page.tsx:14 | `trim()` gives the slice of the text between its leading and its trailing white space, and everything outside that slice is white space |
| Text.TrimIdempotent | app/screener/page.tsx:14 | trimming trimmed text changes nothing |
| Values.AsFinite | app/screener/page.tsx:24 | `Number.isFinite(n) ? n : null` gives a number exactly for a finite value |
| Values.ParseIntRoundTrip | app/screener/page.tsx:23 | `Number` of the decimal text of any integer is that integer |
| Values.ParseLetterIsNaN | app/module-1/page.tsx:29 | text that trims to something starting with a letter, other than `Infinity`, is NaN |
| Seqs.Select | app/screener/page.tsx:246 | `filter` keeps only elements that pass, and keeps each element that passes |
| Seqs.SelectMembers | app/screener/page.tsx:246 | an element is in the filter result exactly when it is in the input and passes |
| Seqs.SelectIsSubsequence | app/screener/page.tsx:246 | a filter result is an order-preserving subsequence of its input |
| Seqs.SelectAppend | app/screener/page.tsx:246 | filtering a concatenation filters each part |
| Seqs.SelectMonotone | app/screener/page.tsx:246-252 | a stronger test keeps a subsequence of what a weaker test keeps |
| Seqs.SelectSelect | app/screener/page.tsx:246-252 | two successive filters equal one filter by the conjunction |
| Seqs.Distinct | app/screener/page.tsx:47 | `new Set` keeps one copy of every element: all members, no repeats |
| Seqs.ToSet | app/screener/page.tsx:222 | `new Set(xs)` has the members of `xs` and no more elements than `xs` |
| Ordering.Flip | app/screener/page.tsx:282 | toggling the direction always changes it |
| Ordering.LexCmp | app/screener/page.tsx:276 | string comparison yields -1, 0 or 1 |
| Ordering.LexCmpZero | app/screener/page.tsx:276 | strings compare equal exactly when they are equal |
| Ordering.LexCmpAntisym | app/screener/page.tsx:276 | swapping the strings negates the comparison |
| Ordering.LexCmpTrans | app/screener/page.tsx:276 | string comparison is transitive |
| Ordering.Cmp | app/screener/page.tsx:270-276 | the comparator yields -1, 0 or 1 |
| Ordering.CmpZero | app/screener/page.tsx:270-276 | two values tie exactly when they are equal; two blanks tie |
| Ordering.CmpAntisym | app/screener/page.tsx:270-276 | swapping the values negates the comparison in either direction |
| Ordering.CmpTrans | app/screener/page.tsx:270-276 | the comparator is transitive, so the sort gets a total preorder |
| Ordering.CmpLtLe | app/screener/page.tsx:270-276 | strictly-before followed by not-after is strictly-before |
| Ordering.InsertPerm | app/screener/page.tsx:261 | inserting adds exactly one copy of the element |
| Ordering.SortPerm | app/screener/page.tsx:261 | sorting a copy gives a permutation of it |
| Ordering.InsertSorted | app/screener/page.tsx:261 | inserting into a sorted sequence keeps it sorted |
| Ordering.SortSorted | app/screener/page.tsx:261-277 | the sorted sequence is ordered by the comparator |
| Ordering.InsertStable | app/screener/page.tsx:261 | insertion puts an element behind every equal one already placed |
| Ordering.SortStable | app/module-1/page.tsx:349 | the sort is stable: every class of equal keys keeps its input order |
| Ordering.SortSpec | app/screener/page.tsx:261-277 | the sort result is a permutation; blanks follow every value; values are in comparator order; ties keep their order |
| Ordering.NumOrder | app/screener/page.tsx:275 | under `(av - bv) * mul`, numbers come out ascending or descending as asked |
| Ordering.TxtOrder | app/screener/page.tsx:276 | under `localeCompare * mul`, text comes out ascending or descending as asked |
| Ordering.SortedDistinctSpec | app/screener/page.tsx:47 | `Array.from(new Set(xs)).sort()` is strictly increasing and has exactly the members of `xs` |
| Csv.Keys | app/screener/page.tsx:82 | an object has one key per property |
| Csv.GetKeys | app/screener/page.tsx:82 | reading a property succeeds exactly for an own key |
| Csv.PutKeys | app/screener/page.tsx:82 | assigning keeps an existing key in place, or appends a new one |
| Csv.PutGet | app/screener/page.tsx:82 | after `o[k] = v`, `o[k]` is `v` and every other property is unchanged |
| Csv.PushRow | app/screener/page.tsx:59-62 | `row()` empties the record; it appends the record unless the record is one blank field |
| Csv.Step | app/screener/page.tsx:64-76 | one move of the loop consumes at least one character and never more than remain, so the loop ends |
| Csv.Lex | app/screener/page.tsx:53-76 | the mutable-state character loop computes the records of the reader specification |
| Csv.FillObject | app/screener/page.tsx:81-83 | the `forEach` assignment builds the header-keyed object |
| Csv.Objects | app/screener/page.tsx:80-84 | one object per data record, in order |
| Csv.Header | app/screener/page.tsx:79 | the header is the trimmed first record |
| Csv.ParseCSV | app/screener/page.tsx:52-85 | `parseCSV` returns the table of its specification |
| Csv.QuotedRun | app/screener/page.tsx:66-69 | inside quotes every character but `"` is content, `,` `\n` `\r` included |
| Csv.EscapedQuote | app/screener/page.tsx:67 | inside quotes `""` is one literal quote, and quoting stays open |
| Csv.UnterminatedQuote | app/screener/page.tsx:66-70 | an unterminated quote takes the rest of the input into the field, with no error |
| Csv.QuoteOpensMidField | app/screener/page.tsx:71 | a quote opens quoting even in the middle of a field |
| Csv.CarriageReturnSkipped | app/screener/page.tsx:74 | outside quotes, in text without a quote, deleting every `\r` changes nothing |
| Csv.RunNewline | app/screener/page.tsx:73 | outside quotes `\n` ends the field and the record |
| Csv.RunComma | app/screener/page.tsx:72 | outside quotes `,` ends the field |
| Csv.RunReturn | app/screener/page.tsx:74 | outside quotes `\r` is dropped and the lexer continues in the same state |
| Csv.RecordsKept | app/screener/page.tsx:60 | no record read is a single blank field, anywhere in the file |
| Csv.RecordsOfWrite | app/screener/page.tsx:52-76 | the round trip: records written with quoting read back, less those that are a single blank field |
| Csv.FillKeys | app/screener/page.tsx:82 | the object's keys are the header names, each once, in first-seen order |
| Csv.FillGet | app/screener/page.tsx:82 | a header name takes the cell of its last column, or `""` past the end of the record |
| Csv.FillMissing | app/screener/page.tsx:82 | a name outside the header is not a property |
| Csv.ObjectSpec | app/screener/page.tsx:80-84 | each object: the distinct header names as keys, the later duplicate winning, missing cells `""`, extra cells ignored |
| Csv.TableSpec | app/screener/page.tsx:78-84 | fewer than 2 records give `[]`; otherwise one object per data record under the trimmed header |
| Columns.KeyIndexValues | app/screener/page.tsx:106 | every index entry maps a normalised name to an actual key that normalises to it |
| Columns.KeyIndexDomain | app/module-1/page.tsx:117 | a name is indexed exactly when some key normalises to it |
| Columns.KeyIndexLastWins | app/module-1/page.tsx:117 | keys that normalise alike resolve to the last of them |
| Columns.BuildIndex | app/screener/page.tsx:106 | building the `Map` gives the index of the keys |
| Columns.Resolve | app/screener/page.tsx:107-111 | the result is nothing exactly when no candidate hits; otherwise it is the key of a candidate that hits |
| Columns.ResolveFirst | app/module-1/page.tsx:119-122 | the earliest candidate that hits wins |
| Columns.Pick | app/screener/page.tsx:107-111 | the early-return loop returns the resolution |
| Columns.HitsIndexed | app/screener/page.tsx:109 | a non-empty name hits exactly when it is in the index |
| Columns.ResolveSpec | app/screener/page.tsx:105-112 | a resolved key is an actual key normalising to a candidate; nothing exactly when no key matches any candidate; the first indexed candidate wins |
| Columns.OrUnknown | app/screener/page.tsx:133 | `x \|\| "Unknown"` is `"Unknown"` for an empty `x` and keeps a non-empty `x` |
| Screener.Norm | app/screener/page.tsx:12-18 | `norm` is `""` or the trimmed text |
| Screener.ToNum | app/screener/page.tsx:20-25 | `toNum` gives a number only for non-blank text that parses to it finitely |
| Screener.NormSpec | app/screener/page.tsx:12-18 | `norm` is `""` exactly for null, undefined, blank text, or `nan`/`null`/`none`/`undefined` in any case; otherwise the trimmed text |
| Screener.NormNoSentinel | app/screener/page.tsx:16 | no sentinel survives `norm`, and `norm` is idempotent |
| Screener.BlankIsNotZero | app/screener/page.tsx:20-25 | absent is never 0: blank or sentinel text gives no number |
| Screener.BlankParsesToZero | app/screener/page.tsx:23 | `Number` alone would read blank text as 0 |
| Screener.NormIntText | app/screener/page.tsx:12-18 | integer text survives `norm` unchanged |
| Screener.ToNumInt | app/screener/page.tsx:20-25 | an integer, or its text, reads back as itself |
| Screener.Aliases | app/screener/page.tsx:89-103 | every canonical column has at least one alias and no alias is empty |
| Screener.Lookups | app/screener/page.tsx:108 | the aliases are looked up lower-cased, not trimmed |
| Screener.PickColumn | app/screener/page.tsx:105-112 | `pick` equals the resolution of the lower-cased aliases against the row's normalised keys |
| Screener.PickSpec | app/screener/page.tsx:105-112 | `pick` gives an actual key whose trimmed, lower-cased form is a lower-cased alias; null exactly when none matches; the first alias wins |
| Screener.CapOrd | app/screener/page.tsx:114 | a table bucket, matched lower-cased, gets its table ordinal (1 to 6, or 99 for `unknown`), and any other bucket gets 50 (corrected reading) |
| Screener.CapOrdAsWritten | app/screener/page.tsx:114 | as written, a table key gives its ordinal; `constructor` and `__proto__` give an inherited member, and only they do |
| Screener.ConstructorCapIsBlank | app/screener/page.tsx:135 | as written, the bucket `constructor` gets `Object` as its ordinal, which `toNum` reads as no number; the corrected ordinal is 50 |
| Screener.CapOrdAlwaysNumber | app/screener/page.tsx:135 | the corrected ordinal always reads as a number, and is 50 outside the table |
| Screener.BuildRow | app/screener/page.tsx:127-146 | a built row keeps the original row and starts untagged. Sector and cap are never empty. The ordinal is the cap's. The ticker is the normalised ticker cell. The score is the raw cell. |
| Screener.BuildRowCategories | app/screener/page.tsx:130-134 | sector and cap are each the normalised cell, or `Unknown` when that is blank |
| Screener.BuildRows | app/screener/page.tsx:116-147 | one row per input row, in order, with every column resolved once from `parsed[0]` |
| Screener.TableSameKeys | app/screener/page.tsx:80-84 | every parsed row has the keys of the first |
| Screener.ResolvedPresent | app/screener/page.tsx:119-146 | on parsed rows, a resolved column always reads as text, never as undefined |
| Screener.RankingMembers | app/screener/page.tsx:218-221 | the ranking holds exactly the entries with a ticker and a score |
| Screener.RankingOrder | app/screener/page.tsx:218-221 | every ranked entry has a ticker and a score, and scores descend |
| Screener.TopOfSpec | app/screener/page.tsx:222 | at most 100 tickers are taken, each one an eligible entry's |
| Screener.RankedBelow | app/screener/page.tsx:218-222 | an eligible entry not taken scores no higher than any entry taken |
| Screener.AllTakenWhenFew | app/screener/page.tsx:222 | with at most 100 eligible entries, all are taken |
| Screener.TopSetSpec | app/screener/page.tsx:218-222 | at most 100 tickers are tagged, each the ticker of a row that has a ticker and a score |
| Screener.UntaggedBelowTop | app/screener/page.tsx:218-223 | an untagged row with a ticker and a score scores no higher than any of the 100 taken ranking entries |
| Screener.TaggedAboveUntagged | app/screener/page.tsx:218-223 | when no two rows share a ticker, every tagged row has a score, and it is at least every untagged ranked row's score |
| Screener.ScorelessDuplicateTagged | app/screener/page.tsx:223 | tagging goes by ticker: a scoreless row that repeats a Top-100 ticker is tagged and leaves the Top-100 set unchanged |
| Screener.AllTaggedWhenFew | app/screener/page.tsx:218-223 | with at most 100 ranked rows, every such row is tagged |
| Screener.Tag | app/screener/page.tsx:223 | each row becomes itself with `_top100` set to its ticker's membership |
| Screener.TagRows | app/screener/page.tsx:223 | the in-place `forEach` leaves the array holding the tagged rows |
| Screener.Load | app/screener/page.tsx:216-223 | loading parses, builds, then tags against the whole table |
| Screener.TagTop100 | app/screener/page.tsx:218-223 | ranking and tagging the built rows gives the rows tagged with their Top-100 set |
| Screener.TagKeepsRanking | app/screener/page.tsx:218-223 | tagging does not change the ranking, so the tags agree with a recomputation |
| Screener.FilteredSpec | app/screener/page.tsx:244-253 | the filtered rows are an order-preserving subsequence holding exactly the matching rows |
| Screener.NoFilters | app/screener/page.tsx:244-253 | with an empty query, `All`, `All` and the toggle off, nothing is removed |
| Screener.Top100Narrows | app/screener/page.tsx:250 | turning the Top-100 toggle on keeps a subsequence of what shows with it off |
| Screener.GateIgnored | app/screener/page.tsx:391-396 | gated rows are only dimmed: the gate takes no part in filtering |
| Screener.TagsPrecedeFilters | app/screener/page.tsx:216-253 | a shown row's tag is its ticker's membership in the whole table's Top-100 set |
| Screener.SortValue | app/screener/page.tsx:259-268 | numeric keys never compare as text, and text keys never as numbers |
| Screener.SortedSpec | app/screener/page.tsx:256-278 | the sorted rows are a permutation of the filtered rows. Blank values follow all valued rows in both directions. Valued rows are ordered numerically or by string, times the direction. Ties keep their order. |
| Screener.CapOrdSortsAsNumber | app/screener/page.tsx:258-263 | the cap ordinal sorts as its number |
| Screener.DoSort | app/screener/page.tsx:280-288 | `doSort` always selects the clicked key |
| Screener.DoSortSpec | app/screener/page.tsx:280-288 | the same key flips the direction, and clicking it twice restores the state; a new key is ascending exactly for the text keys |
| Screener.Badge | app/screener/page.tsx:151-152 | the badge is the dash exactly for a missing score |
| Screener.TierBands | app/screener/page.tsx:153-158 | the tier bands are ≥90, [80,90), [70,80), [60,70) and <60, and a higher score never gets a lower tier |
| Screener.AsOf | app/screener/page.tsx:235-238 | the as-of text is never empty |
| Screener.AsOfSpec | app/screener/page.tsx:235-238 | the date is the first row's that has one, else `—` |
| Screener.UniqueSortedSpec | app/screener/page.tsx:46-48 | the options are exactly the distinct non-blank normalised values, strictly increasing |
| Screener.NormAllMembers | app/screener/page.tsx:47 | `vals.map(norm)` holds exactly the normalised values |
| Screener.SectorOptions | app/screener/page.tsx:240 | the sector options are `All` followed by the sorted distinct sectors |
| Screener.CapOptions | app/screener/page.tsx:241 | the cap options are `All` followed by the sorted distinct cap buckets |
| RelativeStrength.NormStr | app/module-1/page.tsx:14-20 | `normStr` is `""` or the trimmed text |
| RelativeStrength.ToNum | app/module-1/page.tsx:26-31 | `toNum` gives a number only for non-blank text that parses to it finitely |
| RelativeStrength.NormStrSpec | app/module-1/page.tsx:14-20 | `normStr` is `""` exactly for null, undefined, blank text and `nan` in any case; otherwise the trimmed text |
| RelativeStrength.LiteralNullSurvives | app/module-1/page.tsx:14-31 | the texts `null` and `none` survive `normStr`, yet give no number |
| RelativeStrength.LetterTextNaN | app/module-1/page.tsx:14-31 | any four lower-case letters survive `normStr` and give no number |
| RelativeStrength.BlankIsNotZero | app/module-1/page.tsx:26-31 | absent is never 0: blank text and `nan` give no number |
| RelativeStrength.Aliases | app/module-1/page.tsx:98-113 | every logical column has an alias, and every alias is non-empty and starts with a letter |
| RelativeStrength.Lookups | app/module-1/page.tsx:120 | the aliases are looked up through `normKey`, trimmed and lower-cased |
| RelativeStrength.LookupsNonBlank | app/module-1/page.tsx:22-24 | no alias normalises to `""` |
| RelativeStrength.PickKeyLoop | app/module-1/page.tsx:115-124 | `pickKey` equals the resolution of the normalised aliases against the normalised keys |
| RelativeStrength.PickKeySpec | app/module-1/page.tsx:115-124 | `pickKey` gives an actual key whose `normKey` is a normalised alias; null exactly when none matches; the first alias wins |
| RelativeStrength.ResolveColumns | app/module-1/page.tsx:129-144 | the fourteen keys are resolved from the sample row |
| RelativeStrength.Spread | app/module-1/page.tsx:147 | `{ ...r }` keeps the parsed row |
| RelativeStrength.NormalizeRow | app/module-1/page.tsx:147-166 | the successive assignments build the normalised row |
| RelativeStrength.NormalizedSpec | app/module-1/page.tsx:147-166 | a normalised row keeps the parsed row, and its ticker is the normalised ticker text. Sector, industry and cap are each the normalised text, or `Unknown` when that is blank. The date, `rs`, price, return, volatility and drawdown properties are each the cell's text when the column is resolved and present, `undefined` when it is resolved but absent, and `""` when it is unresolved. |
| RelativeStrength.NormalizeRows | app/module-1/page.tsx:127-170 | one row per input row, in order, with keys resolved once from `parsed[0]`; an empty input gives `[]` |
| RelativeStrength.NormalizeAll | app/module-1/page.tsx:145-169 | the `map` normalises every row under the resolved keys |
| RelativeStrength.ResolvedPresent | app/module-1/page.tsx:154-165 | on parsed rows, a resolved column always reads as text |
| RelativeStrength.FilteredSpec | app/module-1/page.tsx:324-336 | the filtered rows are an order-preserving subsequence holding exactly the matching rows |
| RelativeStrength.OnlyFourFieldsMatter | app/module-1/page.tsx:327-333 | search looks at the ticker only: rows that agree on the ticker and the three categories match alike |
| RelativeStrength.SortValue | app/module-1/page.tsx:341-346 | the ticker never compares as a number; `rs` and price never compare as text |
| RelativeStrength.SortedSpec | app/module-1/page.tsx:338-365 | a permutation of the filtered rows. Blanks come last in both directions. Values are in comparator order. Ties keep their order. |
| RelativeStrength.SetSortKey | app/module-1/page.tsx:465 | a sort button selects its key |
| RelativeStrength.ToggleDir | app/module-1/page.tsx:500 | the direction button keeps the key |
| RelativeStrength.ControlsSpec | app/module-1/page.tsx:465-500 | choosing a key never changes the direction; the direction button flips it, twice restores it, and commutes with choosing a key |
| RelativeStrength.AsOfText | app/module-1/page.tsx:310-318 | the as-of text is never empty |
| RelativeStrength.AsOfTextSpec | app/module-1/page.tsx:310-318 | the first row with a non-blank date gives it; with none, the fixed fallback text |
| RelativeStrength.NormAllMembers | app/module-1/page.tsx:190 | `vals.map(normStr)` holds exactly the normalised values |
| RelativeStrength.UniqueSortedSpec | app/module-1/page.tsx:189-192 | the options are exactly the distinct non-blank normalised values, strictly increasing |
| RelativeStrength.Options | app/module-1/page.tsx:320-322 | the options are `All` followed by the sorted distinct values |
| Home.IsBlank | app/page.tsx:9-13 | `isBlank` holds exactly when the screener's `norm` gives `""`, with the same sentinels in any case |
| Home.FieldOfSpec | app/page.tsx:15-20 | the value of the first listed own key, even when it is null or undefined; the fallback for a falsy object or when no key is present |
| Home.FieldOfFirst | app/page.tsx:16-18 | the first present key decides the result |
| Home.FieldOfAbsent | app/page.tsx:19 | with no listed key present, the fallback |
| Home.GetField | app/page.tsx:15-20 | the early-return loop computes the lookup |
| Home.IndexTierTable | app/page.tsx:38-42 | the `forEach`/`set` loop builds the tier index; a null or undefined table gives an empty map |
| Home.TierIndexDomain | app/page.tsx:40 | a key is present exactly when some row is present, has a truthy tier, and has that tier as `String(tier)` |
| Home.TierIndexLastWins | app/page.tsx:40 | for a repeated tier, the later row wins |
| Home.FmtPct | app/page.tsx:22-25 | a percentage is shown only for a value whose `Number` is not NaN |
| Home.FmtPctDash | app/page.tsx:22-25 | the dash is shown exactly for blank input or input that is not a number; blank text is dashed although `Number` reads it as 0 |
| Home.FmtPctInt | app/page.tsx:22-25 | an integer is never dashed and is shown from its own value |
| Home.TierMetaSpec | app/page.tsx:213-218 | the metadata is present exactly when both `asof` and `signal_dates_used` are own truthy properties, and then holds them |
| TopNav.KeptParts | app/components/TopNav.tsx:7 | `filter(Boolean)` keeps no empty string and no more parts than given |
| TopNav.KeptPartsAppend | app/components/TopNav.tsx:7 | filtering keeps order: the kept parts of a concatenation are the kept parts of each half |
| TopNav.KeptPartsMembers | app/components/TopNav.tsx:7 | a string is kept exactly when it is non-empty and was passed |
| TopNav.KeptPartsNone | app/components/TopNav.tsx:7 | nothing is kept exactly when every part is falsy |
| TopNav.JoinAppend | app/components/TopNav.tsx:7 | joining two non-empty lists puts one separator between their joins |
| TopNav.JoinEmpty | app/components/TopNav.tsx:7 | non-empty strings join to `""` only when there are none |
| TopNav.CnSpec | app/components/TopNav.tsx:6-8 | `cn` is `""` exactly when no part is truthy; it joins kept parts with single spaces; falsy parts leave no trace |
| TopNav.LinkClass | app/components/TopNav.tsx:49-54 | a link's class is the base classes, one space, then the state classes |
| TopNav.IsActive | app/components/TopNav.tsx:41-43 | a missing pathname activates nothing, and an active link's `href` is a prefix of the path |
| TopNav.ActiveSpec | app/components/TopNav.tsx:41-43 | a link is active exactly on paths that extend its `href`; `/` is active only on `/` |
| TopNav.NoSegmentBoundary | app/components/TopNav.tsx:43 | the prefix test has no segment boundary: `/screener` is active on `/screenerX` |
| TopNav.ActiveExclusive | app/components/TopNav.tsx:41-43 | links whose `href`s differ at a shared position are never active together |
| TopNav.NavExclusive | app/components/TopNav.tsx:10-15 | at most one link of the navigation bar is active |

## Left out

- Fetching, `res.text()`/`res.json()`, the effects and the `alive` flag, and the loading and error state: asynchronous I/O and lifecycle. The fetched text and the parsed backtest object are parameters.
- JSX and styling; `Dropdown`, `TH`, `ReturnCell` and `PerfCell`; the home page's `Counter`, `FadeIn` and `ScoreBar`: rendering, timers and animation.
- `fmtRet`, `fmtReturn`, `fmtNumber`, `fmtPrice` and `toFixed`: floating point and locale output.
- Home.FmtPct: models only the dash paths. A shown percentage is `Percent(n)` with the value of `Number`; the scaling and the formatting are not modelled.
- Values.ParseNumber: `Number(s)` is an exact decimal parser (sign, digits, point, exponent, `Infinity`). It leaves out hexadecimal, octal and binary literals and the rounding to a double.
- Text.Lower: `toLowerCase` and `toUpperCase` map ASCII letters only.
- Ordering.LexCmp: `localeCompare` and the default `sort()` order are both modelled by code-point order. That is one total order, not locale collation or UTF-16 order.
- Ordering.StableSort: stands for `Array.prototype.sort`, which is stable. The model is a stable insertion sort, the unique stable ordering for this total preorder.
- Csv.Obj: an object is its own properties in insertion order. JavaScript lists integer-like keys first. A `__proto__` header sets the prototype rather than a property. Neither is modelled.
- Screener.BuildRow: the contract does not state the name, price, date, gate and return columns. Their definitions follow the source line by line. `_capOrd` is the corrected ordinal `CapOrd` of the Findings table, not the as-written `CAP_ORD[cap.toLowerCase()] ?? 50`, so `Stock.capOrd` is an integer and cannot hold an inherited member. The spread `{ ...r, _ticker, ... }` is modelled as the original row beside the canonical columns, so a CSV column already named `_ticker` does not collide.
- RelativeStrength.NormalizeRow: the row keeps the copied properties and the canonical `__` properties apart. A CSV column already named like a canonical property does not collide.
- Values.JsValue: numbers are integers or NaN. Fractional and infinite JSON numbers cannot be represented, such as the tier table's averages, medians and win rates that the home page passes to `fmtPct`. Their `String()` text, the shortest round-trip decimal, is not modelled. `Home.FmtPct` and `Home.IsBlank` are therefore stated only for integers, NaN, text, booleans and nullish values.
- Screener.CapOrdSortsAsNumber: holds for the corrected ordinal `CapOrd`, which every built row carries (see Findings). As written, a `constructor` or `__proto__` bucket gets an inherited member whose text is no number, so such a row would sort as blank under `_capOrd` (`Screener.ConstructorCapIsBlank`).
- Screener.UntaggedBelowTop: compares an untagged ranked row only with the 100 taken ranking entries. Tagging in the source goes by ticker rather than by row, so any row that repeats a Top-100 ticker is tagged, whatever its own score, even a blank one (`Screener.ScorelessDuplicateTagged`). The comparison of every tagged row with every untagged ranked row holds only when tickers are unique (`Screener.TaggedAboveUntagged`).
- Home.IsBlank: values are scalars. The `String()` forms of arrays and objects are not modelled.
- Home.TierMeta: the backtest object's values are scalars, and `tierBt ?? {}` is an optional map.
- RelativeStrength.PickKeySpec: states its matches against the normalised aliases `Lookups(l)`, which are `normKey` of each alias by the contract of `Lookups`.

## Findings

| source | as written | input that shows it | evidently intended | confidence | as-written member | corrected member |
|---|---|---|---|---|---|---|
| app/screener/page.tsx:114-135 | `CAP_ORD[cap.toLowerCase()] ?? 50` reads a plain object, so a bucket that names an inherited member of `Object.prototype` gets that member. `??` keeps it because it is not nullish. | a cap bucket `constructor` (or `__proto__`): `_capOrd` becomes the `Object` function, `toNum` reads it as no number, and the row sorts as blank under the cap column | every bucket outside the table gets the ordinal 50 | low, not executed | Screener.ConstructorCapIsBlank | Screener.CapOrdAlwaysNumber |
