# spyone churn aggregation, modelled in Dafny

spyone clones a GitHub repository and reads its `git log --numstat` history
for the last N days. Each file touched in that window gets three numbers:
how many lines were added, how many were deleted, and in how many commits it
appeared. The files are ranked by commit count, then by churn (additions plus
deletions). The ranked table is written to a JSON results file and served
over HTTP.

This project models the deterministic core of that pipeline:

- `strings.dfy` (`Strings`): the JavaScript string operations the core
  relies on.
  - `split`/`join` on one character, and `split(sep).pop()`.
  - `parseInt` as the leading run of decimal digits.
  - Number printing.
  - `indexOf`, and `replace` with a string pattern.
- `churn.dfy` (`Churn`): `EXCLUDED_FILES`, the body of `getData` and
  `getFileHistory` (utils.mjs).
  - A JavaScript `Map` is a sequence of entries with distinct keys, in
    insertion order.
  - `Map.set` is `MapSet`.
  - `getData` is a method whose loop fills that map. It is proved equal to a
    specification function, `Aggregate`, and the lemmas are proved about
    `Aggregate`.
- `repo_url.dfy` (`RepoUrl`): `isValidRepoUrl` (utils.mjs), a regular
  expression written out as a matcher. It also holds the corrected check
  described under Findings.
- `ranking.dfy` (`Ranking`): the comparator sort of index.mjs.
  - The sort works in place on an array of entries.
  - `Array.prototype.sort` is stable (ECMAScript 2019, section 22.1.3.27).
    Under this comparator a stable sort has exactly one possible result, so
    the array is sorted by a stable insertion sort.
  - The sort is proved to produce `Ranked` of the original contents. `Ranked`
    is proved to be a permutation, to be ordered, and to be stable.
- `report.dfy` (`Report`): the rest of index.mjs up to serving.
  - The argument defaults and the usage check.
  - `new Map` over the sorted pairs.
  - The results file name, with the date components as a `Clock` parameter.
  - The `[path, record]` artifact and the total-churn reduce.
  - The output-format check, and a `Run` method composing these steps.
- `wrappers.dfy` (`Wrappers`): `Option` and `Result`.

The log text is an input of the model, and the line separator is a line feed.

A single `-\t-\t<file>` line (git's marker for a binary file) zeroes that file's totals: NaN poisons the whole reduce, and `|| 0` then maps the result to 0. `Map` keeps insertion order, and so does the model, whose table is a sequence of entries.

## Model

| member | source | states |
|---|---|---|
| Churn.ExclusionIsExact | utils.mjs:4-13 | `package.json` is excluded and `sub/package.json` is not: exclusion compares the whole path |
| Strings.Split | utils.mjs:44-46 | `split` gives at least one field and no field holds the separator; `JoinSplit` and `SplitJoin` make it the inverse of `join` |
| Strings.LastField | utils.mjs:46 | `line.split('\t').pop()` is the suffix after the last tab (or the whole line), and it holds no tab |
| Strings.JoinSplit | utils.mjs:90-96 | joining the fields of a split gives back the text |
| Strings.SplitJoin | utils.mjs:90-96 | splitting a join of separator-free parts gives back the parts |
| Strings.ParseInt | utils.mjs:62-63 | `parseInt` fails exactly when the text is empty or does not start with a digit |
| Strings.IndexOf | index.mjs:72 | the index found is an occurrence with none before it; `None` means no occurrence anywhere |
| Strings.ReplaceFirst | index.mjs:72 | `replace` with a string pattern: the text unchanged when the pattern is absent, otherwise the first occurrence replaced |
| Churn.KeptMembers | utils.mjs:48-50 | the filter keeps exactly the keys that are not excluded |
| Churn.Distinct | utils.mjs:52 | `[...new Set(files)]` has no duplicates, has the same members, and keeps first-occurrence order |
| Churn.MapSet | utils.mjs:78-82 | `Map.set` keeps keys distinct: an existing key is updated in place, a new key is appended, other keys are unchanged |
| Churn.Aggregate | utils.mjs:43-84 | the table `getData` resolves with; `GetData` is proved to compute it, and `AggregateKeys`, `AggregateKeyOrder`, `CommitCountIsLineCount` and `AggregateTotals` state its keys, order, counts and totals |
| Churn.GetData | utils.mjs:43-84 | the loop that fills `fileData` produces exactly the aggregated table, with distinct keys |
| Churn.AggregateKeys | utils.mjs:43-52 | the keys are distinct; a path is a key iff some line's last tab-field is that path and it is not excluded; no key is excluded or empty |
| Churn.AggregateKeyOrder | utils.mjs:52-56 | keys appear in the order of their first occurrence in the log |
| Churn.CommitCountIsLineCount | utils.mjs:81 | `commitCount` is the number of lines whose last tab-field is the key, so it is at least 1 |
| Churn.CountKeysOf | utils.mjs:81 | counting a key among the line keys counts the matching lines |
| Churn.CommitCountOrderIndependent | utils.mjs:81 | two logs holding the same lines in any order give the same commit count |
| Churn.GetFileHistory | utils.mjs:89-97 | the matching lines joined by line feeds; `GetFileHistoryLines` proves it splits back to exactly the matching lines, in log order |
| Churn.MatchingMembers | utils.mjs:91-94 | the filter in `getFileHistory` keeps exactly the lines whose last tab-field is the file |
| Churn.GetFileHistoryLines | utils.mjs:89-97 | splitting `getFileHistory` again gives exactly the matching lines, in log order; no match gives the empty string |
| Churn.LineCountsFields | utils.mjs:59-66 | a line `a\tb\t<file>` counts `parseInt(a)` additions and `parseInt(b)` deletions, and the empty line counts 0 and 0 |
| Churn.LineCounts | utils.mjs:59-66 | the per-line record; `LineCountsFields` states it for every numstat line and `BinaryLine` for a binary one |
| Churn.SumCounts | utils.mjs:69-77 | the reduce with NaN poisoning; `SumCountsPoison` proves it is the plain sum when every field parses and NaN otherwise |
| Churn.SumCountsPoison | utils.mjs:59-77 | the reduce gives the sum of the parsed fields when every line parses, and NaN (`None`) as soon as one does not |
| Churn.AggregateTotals | utils.mjs:59-82 | each total is the sum of the parsed first or second fields of the file's lines when all parse, and 0 otherwise |
| Churn.BinaryEntryZeroesTotals | utils.mjs:62-80 | one `-\t-\t<file>` line makes the file's additions and deletions 0, while the file is still counted |
| Churn.OnlyExcludedIsEmpty | utils.mjs:48-56 | a log whose every line key is excluded, blank lines included, gives an empty table |
| Churn.ScenarioTwoFiles | utils.mjs:43-84 | a two-commit log touching `foo.txt` twice and `bar.bin` once gives `foo.txt` (5, 1, 2) then `bar.bin` (0, 0, 1) |
| RepoUrl.IsValidRepoUrl | utils.mjs:31-36 | the validator; `IsValidRepoUrlExactly` proves it accepts exactly the language of its regular expression |
| RepoUrl.IsValidRepoUrlExactly | utils.mjs:31-36 | the validator accepts exactly `https://github` + one non-line-terminator character + `com/` + owner + `/` + repository, both non-empty over `[A-Za-z0-9-]` |
| RepoUrl.RejectsSuffixes | utils.mjs:32-35 | adding `.git`, a trailing slash or a deeper path to an accepted URL makes it rejected |
| RepoUrl.DotMatchesAnyHostChar | utils.mjs:33 | `https://githubXcom/a/b` is accepted as written and rejected by the intended check |
| RepoUrl.IsGithubRepoUrlExactly | utils.mjs:31-36 | the corrected check accepts exactly `https://github.com/owner/repo`, and accepts nothing the written check rejects |
| Ranking.Compare | index.mjs:52-56 | the comparator; `CompareMeaning` proves its sign orders by commit count, then churn, both descending |
| Ranking.CompareMeaning | index.mjs:52-56 | the comparator orders by commit count descending, then churn descending; it is antisymmetric, and 0 exactly on equal keys |
| Ranking.InsertAt | index.mjs:51-58 | one insertion pass moves an element into the sorted prefix, leaving the rest of the array unchanged |
| Ranking.Rank | index.mjs:51-58 | the in-place sort leaves the array holding `Ranked` of its old contents |
| Ranking.Ranked | index.mjs:51-58 | the result of the stable sort; `RankedPermutation`, `RankedSorted` and `RankedStable` prove it a sorted, stable permutation of its input |
| Ranking.RankedPermutation | index.mjs:51-58 | ranking is a permutation: no entry is added, lost or changed |
| Ranking.RankedSorted | index.mjs:52-56 | any two ranked entries are ordered by commit count, and by churn when the counts are equal |
| Ranking.RankedStable | index.mjs:51-58 | entries equal on both keys keep their original relative order |
| Ranking.RankedDistinct | index.mjs:51-58 | ranking keeps the keys distinct |
| Ranking.ScenarioChurnTieBreak | index.mjs:54-55 | with three commits each, the file with churn 50 goes before the file with churn 10 |
| Report.ParseArgs | index.mjs:14-32 | a usage error with exit code 1 iff the URL or the day count is missing or empty; otherwise the settings come from the arguments, and the branch and format are never empty |
| Report.ArgsDefaults | index.mjs:20-23 | the branch defaults to `main` and the format to `json` when missing or empty; otherwise the argument is kept |
| Report.FromEntries | index.mjs:51 | `new Map(pairs)` has distinct keys, and the same keys as the pairs |
| Report.FromEntriesDistinct | index.mjs:51 | `new Map` returns pairs with distinct keys unchanged, in order |
| Report.RankedMap | index.mjs:51-58 | the map after the sort is the ranked table, a permutation of the aggregated one |
| Report.RepoName | index.mjs:69-72 | the repository part of the name holds no `/` |
| Report.RepoNameStripsGit | index.mjs:69-72 | `.../name.git` gives `name` whenever `name` holds no `/` and no `.git`, dots included (`vue.js.git` gives `vue.js`) |
| Report.RepoNamePlain | index.mjs:69-72 | `.../name` gives `name` unchanged whenever `name` holds no `/` and no `.git` |
| Report.FirstGitAt | index.mjs:72 | when `before` holds no `.git`, the first `.git` in `before + ".git" + after` starts right after `before`, and `replace` removes only it |
| Report.RepoNameInnerGit | index.mjs:72 | only the first `.git` is removed, wherever it is: `user.github.io` gives `userhub.io` |
| Report.ResultsFileName | index.mjs:66-72 | the name ends in `.json` |
| Report.ResultsFileNameFields | index.mjs:66-72 | the first five `-` fields read back as year, 1-based month, day, hours and minutes |
| Report.ResultsFileNameSplits | index.mjs:66-72 | when the repository name, day count and branch hold no `-`, the name splits into exactly its eight parts |
| Report.Artifact | index.mjs:74 | the artifact is an array with one `[path, record]` pair per entry |
| Report.ArtifactRoundTrip | index.mjs:74 | reading the artifact back gives the ranked table: every path, every count, in order |
| Report.ArtifactInjective | index.mjs:74 | different tables give different artifacts |
| Report.TotalStats | index.mjs:82-86 | the total churn reduce; `TotalStatsAppend` and `TotalStatsPermutation` prove it additive and independent of order |
| Report.TotalStatsAppend | index.mjs:82-86 | the total over two runs of entries is the sum of their totals |
| Report.TotalStatsPermutation | index.mjs:82-86 | the total does not depend on the order of the entries |
| Report.TotalStatsRanked | index.mjs:82-86 | the total printed after the sort equals the total over the aggregated table |
| Report.Serve | index.mjs:94-123 | any format other than `json` or `html` gives status 500, the error message and exit 1; `json` serves the data as `application/json`; `html` gives the page |
| Report.DefaultFormatServesJson | index.mjs:23 | without a format argument, the data is served as JSON |
| Report.Run | index.mjs:14-86 | a usage error iff the arguments fail the check; otherwise: the ranked table, a permutation of the aggregate; the file name from the clock and arguments; an artifact that reads back to the table; the total churn |
| Report.EmptyRun | index.mjs:51-86 | a log with only excluded paths gives an empty ranking, the artifact `[]` and a total of 0 |

## Left out

- `downloadRepo` and `getRepoHistory` (utils.mjs:15-28, 99-117) clone the repository and run `git log`. This is network and process I/O. The log text they produce is the `log` parameter of `GetData` and `Run`.
- The scratch and results directories and `fs.writeFileSync` (index.mjs:25-27, 34-40, 60-63, 75-80) are file-system I/O. `Run` returns the file name and the artifact instead of writing them.
- The HTTP server, the port probe, the retry timer over `DEFAULT_PORT`, and opening a browser (index.mjs:90-168) are I/O, timers and callbacks. `Serve` models only what one request is answered with.
- Report.Serve: for `html` it returns the data to be embedded. The page assembled from `index.html` is not modelled, and neither is the 404 path when that file is missing.
- Console output is not modelled.
- `process.exit` appears only as the exit code carried by `UsageError` and by the `Fail` reply.
- buildHtml.mjs and help.mjs are not part of this model. help.mjs describes a flag-based command line, while index.mjs reads positional arguments; the model follows index.mjs.
- `JSON.stringify` text is not modelled: string escaping, number printing and whitespace are left out. The artifact is the JSON value tree, an ordered array of `[path, record]` pairs.
- `new Date()` is replaced by the `Clock` parameter. `os.EOL` is fixed to a line feed.
- Strings.ParseInt: reads only a leading run of ASCII digits. `parseInt` also skips leading white space, accepts a sign and reads `0x` prefixes; git's numstat never produces these, and the `-` binary marker gives NaN in both.
- Churn.AggregateTotals: counts are unbounded integers. JavaScript numbers are doubles and lose precision above 2^53.
- Report.TotalStats: the `Number.isNaN` guard is not modelled. Every count is a natural number, so the guard can never fire.
- Strings are sequences of Unicode scalar values, not of UTF-16 code units. A regular-expression `.` matches one of these characters.
- An unsupported output format exits the process with code 1 instead of failing only the one request. The model returns this as the `Fail` reply.
- index.mjs never calls `isValidRepoUrl`, so a malformed URL is not a usage error in `Run`. It fails later, at the clone, which is not modelled.

## Findings

| source | as written | input that shows it | evidently intended | confidence | as-written member | corrected member |
|---|---|---|---|---|---|---|
| utils.mjs:33 | the `.` in `github.com` is an unescaped regular-expression metacharacter and matches any character other than a line terminator | `https://githubXcom/a/b` is accepted | accept only the host `github.com`, with the dot escaped | high; not executed | RepoUrl.DotMatchesAnyHostChar | RepoUrl.IsGithubRepoUrlExactly |
