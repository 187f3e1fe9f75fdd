# Budget ledger and dashboard, modelled in Dafny

This project models the two pure pipelines of a personal budget tool.

- **The ledger build** (`src/build.ts`) reads every configured account in declaration order.
  It reads every file of an account in file order and every parsed row of a file in row order.
  Each row gets its account's name as `Account`; a row's own `Account` column wins over the tag.
  `Amount` is negated for `credit` accounts and converted as is for `debit` accounts.
  All per-file results are concatenated into one ledger.
  A file that cannot be read or parsed fails the build; so does a configuration with no file at all.
- **The dashboard** (`src/index.tsx`) picks a category icon, decides whether a transaction is
  excluded and dims it, shows the payee in a normalised form, and groups the ledger by date,
  with the dates in decreasing string order (newest first for `YYYY-MM-DD` dates).

Files:

- `seqs.dfy` (module `Seqs`): `Flatten`, `Reverse`, `Distinct`.
- `string_order.dfy` (module `StringOrder`): the engine's `<` on strings, an insertion sort
  standing for `Array.prototype.sort`, and the fact that a strictly ordered arrangement of a set
  of strings is unique.
- `ledger.dfy` (module `Ledger`): `src/build.ts`.
  `Build` follows the code: one job per file, then `Promise.all` (`All`), then
  `[file, ...files] => file.concat(...files)` (`ConcatFiles`).
  `ExpectedLedger` is an independent nested definition: accounts, then files, then rows.
  `BuildResult` connects the two.
- `dashboard.dfy` (module `Dashboard`): `src/index.tsx`.

Parameters stand in for what the model cannot see:

- `parsed: map<string, seq<RawRow>>` gives the rows the CSV reader yields for every readable path.
  A path outside its domain is a file that cannot be read or parsed.
- `toNumber: string -> JsNumber` is the engine's string-to-number conversion.
  `Number(x)` and unary `-x` both use it, so the credit parser is `Negate(toNumber(x))`.
- The dashboard's configuration is passed as a `Config` value (`icons`, `exclude`).

What the code does at the points where a reader might expect otherwise:

- Exclusion is membership of the category in the flat `exclude` list (`src/index.tsx:15-17`).
  The group taxonomy typed in `src/config.ts:11-20` is never read.
- A non-numeric `Amount` becomes `NaN` (`src/build.ts:11`).
- The icon fallback is the category's first character as written (`src/index.tsx:12`).

## Model

| member | source | states |
|---|---|---|
| Ledger.NormalizeFields | src/build.ts:10-15 | A record's keys are the row's columns plus `Account`. `Account` is the row's own column when it has one, else the account name. `Amount` is the negated number for a credit account and the number for a debit account. Every other column passes through as text. |
| Ledger.SignRule | src/build.ts:7-11 | Two accounts of the same type produce the same record from a row, except for the `Account` tag. A credit account's `Amount` is the negation of a debit account's. |
| Ledger.FileRecords | src/build.ts:15 | `file.map(...)`, defined by recursion over the rows: as many records as rows, and record `r` is row `r` normalised with the account's name and type. |
| Ledger.All | src/build.ts:5-18 | `Promise.all` succeeds iff every file job succeeds. Its values are the jobs' values in input order. A failure is the failure of one of the jobs. |
| Ledger.ConcatFiles | src/build.ts:19 | `[file, ...files] => file.concat(...files)` through the fold `ConcatArgs`. Fails with `NoFiles` iff there is no per-file result (destructuring an empty array makes `file` undefined). Otherwise it equals `Flatten` of all results, that is, their concatenation in order. |
| Ledger.ConcatArgs | src/build.ts:19 | `concat` with several arguments, as a left fold appending one argument at a time: the receiver followed by the in-order concatenation (`Flatten`) of the arguments. |
| Ledger.PathJobsResult | src/build.ts:7-15 | The jobs of one account succeed iff all its files are readable. Then they give one result per file, and together they give the account's rows in file order. Otherwise the failure names one of its unreadable files. |
| Ledger.JobsReadable | src/build.ts:6-14 | The jobs of all accounts succeed iff every configured file is readable. |
| Ledger.JobsLedger | src/build.ts:6-18 | With every file readable there is one result per configured file, and their concatenation is the reference ledger `ExpectedLedger`. |
| Ledger.JobFailure | src/build.ts:14 | A failing job fails with `Unreadable(p)`, where `p` is a configured file of some account and cannot be read. |
| Ledger.BuildResult | src/build.ts:5-19 | The build succeeds iff every configured file is readable and at least one file is configured. It then equals the reference ledger `ExpectedLedger`. With no files it fails with `NoFiles`. With an unreadable file it fails naming a configured file that cannot be read or parsed. |
| Ledger.LedgerLength | src/build.ts:6-19 | The ledger's length is the total number of rows over every file of every account. |
| Ledger.OffsetCons | src/build.ts:6-19 | The offset of a file of a later account is the first account's ledger length plus the file's offset among the remaining accounts. |
| Ledger.LedgerAt | src/build.ts:6-19 | Row `r` of file `j` of account `i` sits at that file's offset plus `r`. The offset counts all rows of earlier accounts and of earlier files of the same account. It is normalised with account `i`'s name and type. |
| Ledger.LedgerOrigin | src/build.ts:6-19 | Each ledger position is the position of some (account, file, row), and it holds that row normalised. |
| Dashboard.CategoryIcon | src/index.tsx:9-13 | The configured icon when the category is a key of `icons`. Otherwise the category's first character, or the empty string for an empty category. |
| Dashboard.IconShown | src/index.tsx:9-13 | When no configured icon is empty, the icon is non-empty iff the category is configured or non-empty. |
| Dashboard.Includes | src/index.tsx:16 | `includes` is true iff the string is an element of the list. |
| Dashboard.IsExcluded | src/index.tsx:15-17 | A transaction is excluded iff its category is in the `exclude` list. |
| Dashboard.ExcludedByCategory | src/index.tsx:15-17 | Exclusion depends on the category alone. |
| Dashboard.Opacity | src/index.tsx:88 | The opacity is `"0.3"` iff the transaction is excluded, and `"1"` iff it is not. |
| Dashboard.ToLower | src/index.tsx:123 | Lower-casing keeps the length and lower-cases each ASCII letter in place. |
| Dashboard.BlankOthers | src/index.tsx:123 | The replacement keeps the length. It keeps `a-z` and `0-9` in place and turns every other character into a space. |
| Dashboard.DisplayPayeeAt | src/index.tsx:123 | In the payee's display form, lower-case letters and digits stay and `A-Z` becomes the matching lower-case letter. Every other character becomes a space. |
| Dashboard.DisplayPayeeAlphabet | src/index.tsx:123 | The display form has the payee's length and uses only `a-z`, `0-9` and space. |
| Dashboard.DisplayPayeeIdempotent | src/index.tsx:123 | Applying the display form twice equals applying it once. |
| Dashboard.GroupByDate | src/index.tsx:26 | The group keys are exactly the dates that occur. Each group is the input's transactions with that date, in input order. |
| Dashboard.GroupsPartition | src/index.tsx:26 | Every group is non-empty. Every transaction is in the group of its own date. Every member of a group has that group's date. |
| Dashboard.DateKeys | src/index.tsx:27 | The keys hold each occurring date exactly once. |
| Dashboard.Dates | src/index.tsx:27 | The date list is strictly decreasing in string order, has no duplicates, and holds exactly the dates that occur. |
| Dashboard.DatesUnique | src/index.tsx:27 | Any strictly decreasing list of exactly the occurring dates equals the date list, whatever the key order before sorting. |
| Dashboard.SectionsShape | src/index.tsx:57-75 | The list has one section per date, in the date list's order. Each section holds that date's transactions, at least one, in input order. |
| Dashboard.ShownPermutation | src/index.tsx:57-75 | The lines shown are a permutation of the ledger: every transaction is shown exactly as often as it occurs. |
| Dashboard.DateGroups | src/index.tsx:57-75 | The groups of the listed dates, one per date, in the dates' order. |
| Ledger.Build | src/build.ts:5-19 | The whole build: the per-file jobs, `Promise.all`, then the concatenation. Its outcome is stated by `BuildResult`. |
| Ledger.Jobs | src/build.ts:6-7 | The `flatMap` over accounts in declaration order. Its results are stated by `JobsReadable`, `JobsLedger` and `JobFailure`. |
| Ledger.PathJobs | src/build.ts:7 | One job per file of an account, in file order. Its results are stated by `PathJobsResult`. |
| Ledger.FileJob | src/build.ts:8-15 | Reading one file: its normalised rows, or `Unreadable` for a file that cannot be read or parsed. |
| Ledger.Normalize | src/build.ts:10-15 | One record per raw row: the column parser, then the tag. Its fields are stated by `NormalizeFields` and `SignRule`. |
| Ledger.ParseRow | src/build.ts:10-12 | Only `Amount` goes through a column parser; every other cell stays text. Stated by `NormalizeFields`. |
| Ledger.Tag | src/build.ts:15 | `{ Account: name, ...row }`: the row's own fields override the tag. Stated by `NormalizeFields`. |
| Ledger.ParseAmount | src/build.ts:11 | `-x` for credit accounts and `Number` otherwise. Stated by `NormalizeFields` and `SignRule`. |
| Ledger.Negate | src/build.ts:11 | Unary minus, with `NaN` staying `NaN`. |
| Dashboard.DisplayPayee | src/index.tsx:123 | `toLowerCase` followed by the replacement. Stated by `DisplayPayeeAt`, `DisplayPayeeAlphabet` and `DisplayPayeeIdempotent`. |
| Dashboard.LowerChar | src/index.tsx:123 | Lower-casing of one ASCII letter; every other character is unchanged. |
| Dashboard.Sections | src/index.tsx:57-75 | Each listed date paired with its group. Stated by `SectionsShape`. |
| Dashboard.Shown | src/index.tsx:57-75 | The transaction lines in the order the list renders them. Stated by `ShownPermutation`. |
| Seqs.Flatten | src/build.ts:19 | In-order concatenation of the per-file results. `FlattenAppend` shows that it distributes over `+`. |
| Seqs.Reverse | src/index.tsx:27 | `reverse()` on the sorted keys, defined by recursion (rest reversed, then the first element): same length, and element `i` is element `n - 1 - i` of the input. |
| Seqs.ReverseReverse | src/index.tsx:27 | Reversing twice gives back the input. |
| Seqs.ReverseMultiset | src/index.tsx:27 | Reversing keeps every element with its multiplicity, so membership is unchanged. |
| Seqs.FlattenAppend | src/build.ts:19 | Flattening two lists of parts one after the other is the concatenation of their flattenings. |
| StringOrder.Less | src/index.tsx:27 | The default comparison of `sort()`: lexicographic by character, a proper prefix first. `LessIrreflexive`, `LessTransitive` and `LessTotal` prove it a strict total order. |
| StringOrder.Sort | src/index.tsx:27 | Sorting returns a permutation of its input. |
| StringOrder.SortAscending | src/index.tsx:27 | Sorting distinct strings gives a strictly increasing sequence. |
| StringOrder.AscendingUnique | src/index.tsx:27 | Two strictly increasing sequences with the same elements are equal. |

## Left out

- CSV reading and delimiter detection (`csvtojson`, `src/build.ts:8-14`): a foreign library. Each file is given as already-parsed rows (`parsed`). Its nested-object handling of dotted header names is also out.
- `Number(x)` and `-x` (`src/build.ts:11`): the string-to-number conversion is the parameter `toNumber`. Infinity and `-0` are not modelled: a number is `NaN` or a real value.
- Ledger.BuildResult: when several files cannot be read, `Promise.all` reports whichever fails first in time. The model reports the first in declaration order, and the lemma only promises some configured unreadable file.
- Concurrency (`Promise.all`, `.then`, completion order): only the resulting order is modelled. `Promise.all` keeps input order.
- Writing `transactions.json` and JSON serialisation (`src/build.ts:21`): I/O. A record is a map, so its key order is not modelled.
- `Object.entries` puts integer-like keys first (`src/build.ts:6`): accounts are an ordered sequence in declaration order.
- The `in` operator also finding prototype keys such as `toString` (`src/index.tsx:10`): the icon map is a plain finite map.
- Dashboard.ToLower: lower-cases ASCII letters only. Full Unicode lower-casing can turn a non-ASCII character into an ASCII letter (KELVIN SIGN into `k`) or into two characters (U+0130). The model keeps non-ASCII characters, and the replacement then makes them a space.
- Dashboard.DisplayPayeeAt: characters are Unicode scalar values. The engine works on UTF-16 code units, so a character outside the Basic Multilingual Plane becomes two spaces there and one here.
- StringOrder.Sort: compares characters by code point. The engine compares UTF-16 code units, which orders characters outside the Basic Multilingual Plane differently.
- StringOrder.Sort: an insertion sort stands for the engine's sort. The keys are distinct, and `AscendingUnique` shows that the sorted result does not depend on the algorithm.
- Dashboard.CategoryIcon: the fallback is the first character, a Unicode scalar value. `charAt(0)` gives the first UTF-16 code unit, so for a category starting outside the Basic Multilingual Plane (an emoji, say) the engine shows a lone surrogate and the model shows the whole character.
- Date headings (`src/index.tsx:28-32,71`): the locale and `Intl.DateTimeFormat` output are not modelled. `intl.format(new Date(date).getTime())` throws a `RangeError` when a date does not parse (`31/01/2024`, or the key `undefined` of rows with no `Date`), and then nothing is rendered.
- React markup, styles and `ReactDOM.render` (`src/index.tsx:19-142`), except the opacity choice and the order of sections and lines.
- `Amount.toFixed(2)` (`src/index.tsx:137`): the formatted digits are not modelled. A `NaN` amount is written to `transactions.json` as `null`, so `toFixed` throws a `TypeError` on it; the same happens for a row with no `Amount`.
- `transaction.Payee.toLowerCase()` (`src/index.tsx:123`) throws a `TypeError` for a row with no `Payee`.
- Dashboard.Transaction: assumes every record has string `Date`, `Payee` and `Category` and a numeric `Amount`. Dashboard.Shown and Dashboard.SectionsShape describe the rendered list only when every date parses and those fields are present; otherwise the render throws as above.
- `src/config.ts`: type declarations only, with no logic. Its account shape is `Ledger.Account`.
