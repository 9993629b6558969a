/** What index.mjs does with the aggregated table once `getData` has
    produced it: the command-line defaults and usage check, the ranking and
    the rebuilt map, the results file name, the JSON artifact layout, the
    total-churn figure, and the output-format check of the server callback.
    The clock, the file system, git and the HTTP server stay outside: the
    date components and the log text are parameters. */
module Report {
  import opened Wrappers
  import opened Strings
  import opened Churn
  import opened Ranking

  // ---- command line (index.mjs:14-32) ----

  /** The settings read from `process.argv`. */
  datatype Config = Config(repoUrl: string, daysAmount: string, branchName: string, outputFormat: string)

  /** The usage failure: a message on standard error and an exit code. */
  datatype UsageError = UsageError(message: string, exitCode: nat)

  const UsageMessage: string := "Usage: npx @jointly/spyone <repo-url> <commit-count>"

  /** `process.argv[i]`: undefined past the end. */
  function Arg(argv: seq<string>, i: nat): (r: Option<string>)
    ensures r.Some? <==> i < |argv|
  {
    if i < |argv| then Some(argv[i]) else None
  }

  /** JavaScript truthiness of a possibly undefined string. */
  predicate Truthy(a: Option<string>)
  {
    a.Some? && a.value != ""
  }

  /** `a || fallback` on a possibly undefined string. */
  function OrDefault(a: Option<string>, fallback: string): (r: string)
    ensures Truthy(a) ==> r == a.value
    ensures !Truthy(a) ==> r == fallback
  {
    if Truthy(a) then a.value else fallback
  }

  /** Reading the arguments: node and the script path come first, then the
      repository URL, the day count, the branch and the output format. */
  function ParseArgs(argv: seq<string>): (r: Result<Config, UsageError>)
    ensures r.Err? <==> !Truthy(Arg(argv, 2)) || !Truthy(Arg(argv, 3))
    ensures r.Err? ==> r.error == UsageError(UsageMessage, 1)
    ensures r.Ok? ==> r.value.repoUrl == argv[2] && r.value.daysAmount == argv[3]
    ensures r.Ok? ==> r.value.branchName != "" && r.value.outputFormat != ""
  {
    var repoUrl := Arg(argv, 2);
    var daysAmount := Arg(argv, 3);
    var branchName := OrDefault(Arg(argv, 4), "main");
    var outputFormat := OrDefault(Arg(argv, 5), "json");
    if !Truthy(repoUrl) || !Truthy(daysAmount) then Err(UsageError(UsageMessage, 1))
    else Ok(Config(repoUrl.value, daysAmount.value, branchName, outputFormat))
  }

  /** The branch defaults to `main` and the format to `json` when they are
      missing or empty; a non-empty argument is taken as given. */
  lemma ArgsDefaults(argv: seq<string>)
    requires ParseArgs(argv).Ok?
    ensures (|argv| <= 4 || argv[4] == "") ==> ParseArgs(argv).value.branchName == "main"
    ensures (|argv| > 4 && argv[4] != "") ==> ParseArgs(argv).value.branchName == argv[4]
    ensures (|argv| <= 5 || argv[5] == "") ==> ParseArgs(argv).value.outputFormat == "json"
    ensures (|argv| > 5 && argv[5] != "") ==> ParseArgs(argv).value.outputFormat == argv[5]
  {
  }

  // ---- the rebuilt map (index.mjs:51-58) ----

  /** `new Map(pairs)`: each pair is `set` in turn. The result has distinct
      keys, exactly those of the pairs. */
  function FromEntries(pairs: seq<Entry>): (m: seq<Entry>)
    ensures DistinctPaths(m)
    ensures forall k :: k in Paths(m) <==> k in Paths(pairs)
  {
    if pairs == [] then []
    else
      var last := pairs[|pairs| - 1];
      assert Paths(pairs) == Paths(pairs[..|pairs| - 1]) + [last.path];
      MapSet(FromEntries(pairs[..|pairs| - 1]), last.path, last.stat)
  }

  /** Pairs with distinct keys come back out of `new Map` unchanged, in the
      same order. */
  lemma {:induction false} FromEntriesDistinct(pairs: seq<Entry>)
    requires DistinctPaths(pairs)
    ensures FromEntries(pairs) == pairs
  {
    if pairs != [] {
      var p := pairs[..|pairs| - 1];
      var last := pairs[|pairs| - 1];
      DistinctInit(pairs);
      FromEntriesDistinct(p);
      calc {
        FromEntries(pairs);
        MapSet(FromEntries(p), last.path, last.stat);
        MapSet(p, last.path, last.stat);
        p + [last];
        pairs;
      }
    }
  }

  /** Dropping the last pair keeps the keys distinct, and the dropped key is
      not among the rest. */
  lemma DistinctInit(pairs: seq<Entry>)
    requires DistinctPaths(pairs) && pairs != []
    ensures DistinctPaths(pairs[..|pairs| - 1])
    ensures pairs[|pairs| - 1].path !in Paths(pairs[..|pairs| - 1])
  {
    var p := pairs[..|pairs| - 1];
    forall u, v | 0 <= u < v < |p| ensures p[u].path != p[v].path {
      assert p[u] == pairs[u] && p[v] == pairs[v];
    }
    forall u | 0 <= u < |p| ensures Paths(p)[u] != pairs[|pairs| - 1].path {
      assert p[u] == pairs[u];
    }
  }

  /** The map index.mjs holds after the sort: the aggregated entries ranked,
      each file once. */
  lemma RankedMap(log: string)
    ensures FromEntries(Ranked(Aggregate(log))) == Ranked(Aggregate(log))
    ensures multiset(FromEntries(Ranked(Aggregate(log)))) == multiset(Aggregate(log))
  {
    AggregateKeys(log);
    RankedDistinct(Aggregate(log));
    FromEntriesDistinct(Ranked(Aggregate(log)));
    RankedPermutation(Aggregate(log));
  }

  // ---- results file name (index.mjs:66-72) ----

  /** The components of `new Date()` that the name uses; `month` is
      `getMonth()`, counted from 0. */
  datatype Clock = Clock(year: nat, month: nat, day: nat, hours: nat, minutes: nat)

  /** `repoUrl.split('/').pop().replace('.git', '')`. */
  function RepoName(repoUrl: string): (r: string)
    ensures '/' !in r
  {
    var last := LastField(repoUrl, '/');
    var r := ReplaceFirst(last, ".git", "");
    assert forall c | c in r :: c in last;
    r
  }

  /** The last path segment loses a `.git` suffix; dots elsewhere in the
      name (`vue.js.git`) are kept. */
  lemma RepoNameStripsGit(repoUrl: string, prefix: string, name: string)
    requires repoUrl == prefix + "/" + name + ".git"
    requires '/' !in name && IndexOf(name, ".git").None?
    ensures RepoName(repoUrl) == name
  {
    var tail := name + ".git";
    assert repoUrl == prefix + "/" + tail;
    LastFieldAfter(prefix, tail);
    FirstOccurrenceAt(name);
  }

  /** A segment without `.git` is kept whole. */
  lemma RepoNamePlain(repoUrl: string, prefix: string, name: string)
    requires repoUrl == prefix + "/" + name
    requires '/' !in name && IndexOf(name, ".git").None?
    ensures RepoName(repoUrl) == name
  {
    LastFieldAfter(prefix, name);
  }

  /** Only the first occurrence of `.git` is removed, wherever it stands: a
      repository named `user.github.io` gives `userhub.io`. */
  lemma RepoNameInnerGit(prefix: string, name: string)
    requires prefix == "https://github.com/user"
    requires name == "user" + ".git" + "hub.io"
    ensures RepoName(prefix + "/" + name) == "userhub.io"
  {
    assert '/' !in name;
    LastFieldAfter(prefix, name);
    NoDotNoGit("user");
    FirstGitAt("user", "hub.io");
  }

  lemma LastFieldAfter(prefix: string, tail: string)
    requires '/' !in tail
    ensures LastField(prefix + "/" + tail, '/') == tail
  {
    var parts := Split(prefix, '/') + [tail];
    JoinSplit(prefix, '/');
    JoinLast(parts, '/');
    assert parts[..|parts| - 1] == Split(prefix, '/');
    SplitJoin(parts, '/');
  }

  lemma FirstOccurrenceAt(name: string)
    requires IndexOf(name, ".git").None?
    ensures IndexOf(name + ".git", ".git") == Some(|name|)
    ensures ReplaceFirst(name + ".git", ".git", "") == name
  {
    FirstGitAt(name, "");
    assert name + ".git" + "" == name + ".git";
    assert name + "" == name;
  }

  /** A text without `.` holds no `.git`. */
  lemma NoDotNoGit(s: string)
    requires '.' !in s
    ensures IndexOf(s, ".git").None?
  {
    forall j: nat ensures !OccursAt(s, ".git", j) {
      if j < |s| {
        assert s[j] != '.' && ".git"[0] == '.';
      }
    }
  }

  /** When `before` holds no `.git`, the first `.git` is the one right after
      it: none can start inside `before`, nor straddle its end, since the
      `.` right after `before` is not the 2nd, 3rd or 4th letter of `.git`. */
  lemma FirstGitAt(before: string, after: string)
    requires IndexOf(before, ".git").None?
    ensures IndexOf(before + ".git" + after, ".git") == Some(|before|)
    ensures ReplaceFirst(before + ".git" + after, ".git", "") == before + after
  {
    var s := before + ".git" + after;
    assert s[|before|..|before| + 4] == ".git";
    assert OccursAt(s, ".git", |before|);
    forall j | 0 <= j < |before| ensures !OccursAt(s, ".git", j) {
      if j + 4 <= |before| {
        assert s[j..j + 4] == before[j..j + 4];
        assert !OccursAt(before, ".git", j);
      } else {
        var d := |before| - j;
        assert s[j..j + 4][d] == s[|before|] == '.';
        assert ".git"[d] != '.';
      }
    }
    assert s[..|before|] == before;
    assert s[|before| + 4..] == after;
  }

  /** The eight `-`-separated parts of the name: numbers without padding,
      the month counted from 1. */
  function FileNameParts(clock: Clock, repoUrl: string, daysAmount: string, branchName: string): (parts: seq<string>)
    ensures |parts| == 8
  {
    [NatToString(clock.year), NatToString(clock.month + 1), NatToString(clock.day),
     NatToString(clock.hours), NatToString(clock.minutes),
     RepoName(repoUrl), daysAmount, branchName + ".json"]
  }

  /** `Y-M-D-h-m-<repo>-<days>-<branch>.json`. */
  function ResultsFileName(clock: Clock, repoUrl: string, daysAmount: string, branchName: string): (name: string)
    ensures |name| >= 5 && name[|name| - 5..] == ".json"
  {
    var parts := FileNameParts(clock, repoUrl, daysAmount, branchName);
    JoinLast(parts, '-');
    Join(parts, '-')
  }

  /** The name splits back at `-` into fields of which the first five read
      back as the year, the 1-based month, the day, the hours and the
      minutes, whatever the other parts hold. */
  lemma ResultsFileNameFields(clock: Clock, repoUrl: string, daysAmount: string, branchName: string)
    ensures var f := Split(ResultsFileName(clock, repoUrl, daysAmount, branchName), '-');
      |f| >= 6 &&
      ParseInt(f[0]) == Some(clock.year) && ParseInt(f[1]) == Some(clock.month + 1) &&
      ParseInt(f[2]) == Some(clock.day) && ParseInt(f[3]) == Some(clock.hours) &&
      ParseInt(f[4]) == Some(clock.minutes)
  {
    var parts := FileNameParts(clock, repoUrl, daysAmount, branchName);
    forall i | 0 <= i < 5 ensures '-' !in parts[i] {
      DigitsNoDash(parts[i]);
    }
    SplitLeading(parts, 5, '-');
    var f := Split(Join(parts, '-'), '-');
    assert f[..5] == parts[..5];
    assert f[0] == NatToString(clock.year) && f[1] == NatToString(clock.month + 1);
    assert f[2] == NatToString(clock.day) && f[3] == NatToString(clock.hours);
    assert f[4] == NatToString(clock.minutes);
    ParseNumber(clock.year);
    ParseNumber(clock.month + 1);
    ParseNumber(clock.day);
    ParseNumber(clock.hours);
    ParseNumber(clock.minutes);
  }

  /** When the repository name, the day count and the branch hold no `-`,
      the name splits back into exactly its eight parts. */
  lemma ResultsFileNameSplits(clock: Clock, repoUrl: string, daysAmount: string, branchName: string)
    requires '-' !in RepoName(repoUrl) && '-' !in daysAmount && '-' !in branchName
    ensures Split(ResultsFileName(clock, repoUrl, daysAmount, branchName), '-')
      == FileNameParts(clock, repoUrl, daysAmount, branchName)
  {
    var parts := FileNameParts(clock, repoUrl, daysAmount, branchName);
    forall i | 0 <= i < 5 ensures '-' !in parts[i] {
      DigitsNoDash(parts[i]);
    }
    assert '-' !in branchName + ".json";
    SplitJoin(parts, '-');
  }

  /** Leading parts without the separator come back unchanged from a split
      of the join. */
  lemma {:induction false} SplitLeading(parts: seq<string>, k: nat, sep: char)
    requires k < |parts|
    requires forall i :: 0 <= i < k ==> sep !in parts[i]
    ensures Split(Join(parts, sep), sep) == parts[..k] + Split(Join(parts[k..], sep), sep)
  {
    if k > 0 {
      SplitLeading(parts, k - 1, sep);
      var t := parts[k - 1..];
      assert t[0] == parts[k - 1] && t[1..] == parts[k..];
      SplitJoinCons(t, sep);
      assert parts[..k] == parts[..k - 1] + [parts[k - 1]];
    }
  }

  /** A first part without the separator is split off on its own. */
  lemma SplitJoinCons(t: seq<string>, sep: char)
    requires |t| >= 2 && sep !in t[0]
    ensures Split(Join(t, sep), sep) == [t[0]] + Split(Join(t[1..], sep), sep)
  {
    SplitCons(t[0], Join(t[1..], sep), sep);
  }

  lemma ParseNumber(n: nat)
    ensures ParseInt(NatToString(n)) == Some(n)
  {
    ParseIntNatToString(n, []);
    assert NatToString(n) + [] == NatToString(n);
  }

  lemma DigitsNoDash(s: string)
    requires AllDigits(s)
    ensures '-' !in s
  {
    forall i | 0 <= i < |s| ensures s[i] != '-' {
      assert IsDigit(s[i]);
    }
  }

  // ---- the artifact (index.mjs:74) ----

  /** A JSON value as `JSON.stringify` sees it. */
  datatype Json = JNum(n: nat) | JStr(s: string) | JArr(items: seq<Json>) | JObj(members: seq<Member>)
  datatype Member = Member(key: string, value: Json)

  /** The record as `getData` builds it, keys in creation order. */
  function StatJson(stat: FileStat): Json
  {
    JObj([Member("additions", JNum(stat.additions)), Member("deletions", JNum(stat.deletions)),
          Member("commitCount", JNum(stat.commitCount))])
  }

  /** One map entry as a `[key, value]` pair. */
  function PairJson(e: Entry): Json
  {
    JArr([JStr(e.path), StatJson(e.stat)])
  }

  function Pairs(entries: seq<Entry>): (items: seq<Json>)
    ensures |items| == |entries|
  {
    if entries == [] then [] else [PairJson(entries[0])] + Pairs(entries[1..])
  }

  /** `JSON.stringify([...data.entries()])` before it becomes text: an array
      of `[path, record]` pairs in map order. */
  function Artifact(entries: seq<Entry>): (j: Json)
    ensures j.JArr? && |j.items| == |entries|
  {
    JArr(Pairs(entries))
  }

  /** Reading one record back. */
  function ParseStat(j: Json): Option<FileStat>
  {
    match j
    case JObj(ms) =>
      if |ms| == 3 && ms[0].key == "additions" && ms[1].key == "deletions" && ms[2].key == "commitCount"
         && ms[0].value.JNum? && ms[1].value.JNum? && ms[2].value.JNum?
      then Some(FileStat(ms[0].value.n, ms[1].value.n, ms[2].value.n))
      else None
    case _ => None
  }

  /** Reading one `[path, record]` pair back. */
  function ParsePair(j: Json): Option<Entry>
  {
    match j
    case JArr(items) =>
      if |items| == 2 && items[0].JStr? && ParseStat(items[1]).Some?
      then Some(Entry(items[0].s, ParseStat(items[1]).value))
      else None
    case _ => None
  }

  function ParsePairs(items: seq<Json>): Option<seq<Entry>>
  {
    if items == [] then Some([])
    else match (ParsePair(items[0]), ParsePairs(items[1..]))
      case (Some(e), Some(rest)) => Some([e] + rest)
      case _ => None
  }

  /** Reading a results file back into the ranked table. */
  function ParseArtifact(j: Json): Option<seq<Entry>>
  {
    match j
    case JArr(items) => ParsePairs(items)
    case _ => None
  }

  lemma {:induction false} PairsRoundTrip(entries: seq<Entry>)
    ensures ParsePairs(Pairs(entries)) == Some(entries)
  {
    if entries != [] {
      PairsRoundTrip(entries[1..]);
      assert Pairs(entries)[1..] == Pairs(entries[1..]);
      assert [entries[0]] + entries[1..] == entries;
    }
  }

  /** The artifact keeps every entry, its path, its three counts and the
      ranking order: reading it back gives the table. */
  lemma ArtifactRoundTrip(entries: seq<Entry>)
    ensures ParseArtifact(Artifact(entries)) == Some(entries)
  {
    PairsRoundTrip(entries);
  }

  /** Different tables give different artifacts. */
  lemma ArtifactInjective(a: seq<Entry>, b: seq<Entry>)
    requires Artifact(a) == Artifact(b)
    ensures a == b
  {
    ArtifactRoundTrip(a);
    ArtifactRoundTrip(b);
  }

  // ---- total stats (index.mjs:82-86) ----

  /** The reduce over the entries: additions plus deletions added up from
      the left. The `Number.isNaN` guard is left out: every count is a
      natural number here. */
  function TotalStats(entries: seq<Entry>): nat
  {
    if entries == [] then 0
    else TotalStats(entries[..|entries| - 1]) + ChurnOf(entries[|entries| - 1].stat)
  }

  lemma {:induction false} TotalStatsAppend(a: seq<Entry>, b: seq<Entry>)
    ensures TotalStats(a + b) == TotalStats(a) + TotalStats(b)
    decreases |b|
  {
    if b == [] {
      assert a + b == a;
    } else {
      TotalStatsAppend(a, b[..|b| - 1]);
      assert (a + b)[..|a + b| - 1] == a + b[..|b| - 1];
    }
  }

  /** The total does not depend on the order of the entries. */
  lemma {:induction false} TotalStatsPermutation(a: seq<Entry>, b: seq<Entry>)
    requires multiset(a) == multiset(b)
    ensures TotalStats(a) == TotalStats(b)
    decreases |a|
  {
    if a == [] {
      assert |b| == |multiset(b)| == 0;
    } else {
      var x := a[|a| - 1];
      var p := a[..|a| - 1];
      assert a == p + [x];
      assert x in multiset(b);
      var k :| 0 <= k < |b| && b[k] == x;
      var b1, b2 := b[..k], b[k + 1..];
      assert b == b1 + [x] + b2;
      RemoveOne(p, x, b1, b2);
      TotalStatsPermutation(p, b1 + b2);
      TotalStatsSplice(b1, x, b2);
    }
  }

  /** Taking the same element out of two permutations leaves permutations. */
  lemma RemoveOne(p: seq<Entry>, x: Entry, b1: seq<Entry>, b2: seq<Entry>)
    requires multiset(p + [x]) == multiset(b1 + [x] + b2)
    ensures multiset(p) == multiset(b1 + b2)
  {
    assert multiset(b1 + [x] + b2) == multiset(b1) + multiset{x} + multiset(b2);
    assert multiset(p + [x]) == multiset(p) + multiset{x};
    assert multiset(b1 + b2) == multiset(b1) + multiset(b2);
    assert multiset(p) == multiset(p + [x]) - multiset{x};
    assert multiset(b1 + b2) == multiset(b1 + [x] + b2) - multiset{x};
  }

  /** An entry inserted anywhere adds its churn to the total. */
  lemma TotalStatsSplice(b1: seq<Entry>, x: Entry, b2: seq<Entry>)
    ensures TotalStats(b1 + [x] + b2) == TotalStats(b1 + b2) + ChurnOf(x.stat)
  {
    TotalStatsAppend(b1, b2);
    TotalStatsAppend(b1 + [x], b2);
    TotalStatsAppend(b1, [x]);
    assert [x][..0] == [];
  }

  /** The figure printed after the sort equals additions plus deletions
      over the aggregated table, in any order. */
  lemma TotalStatsRanked(s: seq<Entry>)
    ensures TotalStats(Ranked(s)) == TotalStats(s)
  {
    RankedPermutation(s);
    TotalStatsPermutation(Ranked(s), s);
  }

  // ---- the output-format check (index.mjs:94-123) ----

  /** What the server callback answers with. The HTML page itself is built
      from `index.html` and is not modelled. */
  datatype Reply =
    | Respond(status: nat, contentType: string, body: string)
    | HtmlPage(data: string)
    | Fail(status: nat, message: string, exitCode: nat)

  const FormatError: string := "❌ Output format not supported (json or html)"

  function Serve(outputFormat: string, data: string): (r: Reply)
    ensures r.Fail? <==> outputFormat != "json" && outputFormat != "html"
    ensures r.Fail? ==> r.status == 500 && r.exitCode == 1 && r.message == FormatError
    ensures outputFormat == "json" ==> r == Respond(200, "application/json", data)
    ensures outputFormat == "html" ==> r == HtmlPage(data)
  {
    if outputFormat != "json" && outputFormat != "html" then Fail(500, FormatError, 1)
    else if outputFormat == "html" then HtmlPage(data)
    else Respond(200, "application/json", data)
  }

  /** With no format argument the results are served as JSON. */
  lemma DefaultFormatServesJson(argv: seq<string>, data: string)
    requires ParseArgs(argv).Ok? && |argv| <= 5
    ensures Serve(ParseArgs(argv).value.outputFormat, data) == Respond(200, "application/json", data)
  {
  }

  // ---- the whole run ----

  /** The outcome of one invocation, up to serving. */
  datatype Outcome =
    | Usage(error: UsageError)
    | Done(ranked: seq<Entry>, fileName: string, artifact: Json, stats: nat)

  /** index.mjs from reading the arguments to printing the total; `log`
      stands for the history git reports for the day count. */
  method Run(argv: seq<string>, log: string, clock: Clock) returns (outcome: Outcome)
    ensures ParseArgs(argv).Err? <==> outcome.Usage?
    ensures outcome.Usage? ==> outcome.error.exitCode == 1
    ensures outcome.Done? ==> outcome.ranked == Ranked(Aggregate(log))
    ensures outcome.Done? ==> multiset(outcome.ranked) == multiset(Aggregate(log))
    ensures outcome.Done? ==> ParseArtifact(outcome.artifact) == Some(outcome.ranked)
    ensures outcome.Done? ==> outcome.stats == TotalStats(Aggregate(log))
    ensures outcome.Done? ==>
      var c := ParseArgs(argv).value;
      outcome.fileName == ResultsFileName(clock, c.repoUrl, c.daysAmount, c.branchName)
  {
    var args := ParseArgs(argv);
    if args.Err? {
      return Usage(args.error);
    }
    var config := args.value;
    var data := GetData(log);
    var a := new Entry[|data|](i requires 0 <= i < |data| => data[i]);
    assert a[..] == data;
    Rank(a);
    var ranked := FromEntries(a[..]);
    RankedMap(log);
    var fileName := ResultsFileName(clock, config.repoUrl, config.daysAmount, config.branchName);
    var artifact := Artifact(ranked);
    ArtifactRoundTrip(ranked);
    TotalStatsRanked(Aggregate(log));
    outcome := Done(ranked, fileName, artifact, TotalStats(ranked));
  }

  /** A history with nothing but excluded paths: the table, the artifact and
      the total are all empty. */
  lemma EmptyRun(log: string)
    requires forall i :: 0 <= i < |Lines(log)| ==> IsExcluded(FileKey(Lines(log)[i]))
    ensures Ranked(Aggregate(log)) == []
    ensures Artifact(Ranked(Aggregate(log))) == JArr([])
    ensures TotalStats(Ranked(Aggregate(log))) == 0
  {
    OnlyExcludedIsEmpty(log);
  }
}
